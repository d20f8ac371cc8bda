/**
 * The errors a GraphQL server reports (the Go types Error and Errors) and
 * their textual summaries.
 */
module GqlErrors {

  /** A position in the query document; the server counts lines and columns from 1. */
  datatype Location = Location(line: int, column: int)

  /** One step of the response path that led to the failing field. */
  datatype PathSegment = FieldName(name: string) | ListIndex(index: int)

  /** The extension block in the shape Hasura's server sends. */
  datatype HasuraExtensions = HasuraExtensions(path: string, code: string)

  /** One server-reported error; `kind` holds the JSON field "type". */
  datatype Error = Error(
    message: string,
    locations: seq<Location>,
    kind: string,
    path: seq<PathSegment>,
    extensions: HasuraExtensions)

  /** The error list of a response, in the order the server sent it. */
  type Errors = seq<Error>

  /**
   * The text of a single error (the method Error.Error): its message alone;
   * locations, type, path and extensions play no part.
   */
  function ErrorText(e: Error): (r: string)
    ensures r == e.message
  {
    e.message
  }

  /** The separator the combined text uses between two messages. */
  const Separator: string := ", "

  /** Go's strings.Join: the parts with `sep` between neighbours. */
  function Join(parts: seq<string>, sep: string): (joined: string)
    decreases |parts|
  {
    if |parts| == 0 then ""
    else if |parts| == 1 then parts[0]
    else parts[0] + sep + Join(parts[1..], sep)
  }

  /** The messages of `errs`, one per error, in list order. */
  function Messages(errs: Errors): (ms: seq<string>)
    ensures |ms| == |errs|
    ensures forall i :: 0 <= i < |errs| ==> ms[i] == ErrorText(errs[i])
  {
    if errs == [] then [] else [errs[0].message] + Messages(errs[1..])
  }

  /** The combined text of an error list (what Errors.Error returns). */
  function CombinedMessage(errs: Errors): (r: string)
    ensures errs == [] ==> r == ""
    ensures |errs| == 1 ==> r == ErrorText(errs[0])
  {
    Join(Messages(errs), Separator)
  }

  /**
   * Errors.Error as the source computes it: collect every message into a
   * fresh list, then join the list with ", ".
   */
  method ErrorsText(errs: Errors) returns (s: string)
    ensures s == CombinedMessage(errs)
  {
    var collected: seq<string> := [];
    for i := 0 to |errs|
      invariant |collected| == i
      invariant forall j :: 0 <= j < i ==> collected[j] == errs[j].message
    {
      collected := collected + [errs[i].message];
    }
    assert collected == Messages(errs);
    s := Join(collected, Separator);
  }

  /** Joining two non-empty lists puts one separator between their joins. */
  lemma {:induction false} JoinConcat(ps: seq<string>, qs: seq<string>, sep: string)
    requires ps != [] && qs != []
    ensures Join(ps + qs, sep) == Join(ps, sep) + sep + Join(qs, sep)
    decreases |ps|
  {
    if |ps| == 1 {
      assert (ps + qs)[1..] == qs;
    } else {
      assert (ps + qs)[1..] == ps[1..] + qs;
      JoinConcat(ps[1..], qs, sep);
    }
  }

  /** The messages of a concatenation are the concatenated messages. */
  lemma MessagesConcat(a: Errors, b: Errors)
    ensures Messages(a + b) == Messages(a) + Messages(b)
  {
  }

  /**
   * Cutting a list anywhere strictly inside it splits the combined text at
   * one ", ": no message is dropped, duplicated or moved across the cut.
   */
  lemma CombinedSplit(errs: Errors, k: nat)
    requires 0 < k < |errs|
    ensures CombinedMessage(errs) == CombinedMessage(errs[..k]) + Separator + CombinedMessage(errs[k..])
  {
    assert errs == errs[..k] + errs[k..];
    MessagesConcat(errs[..k], errs[k..]);
    JoinConcat(Messages(errs[..k]), Messages(errs[k..]), Separator);
  }

  /** Appending an error to a non-empty list extends the text by ", " and its message. */
  lemma CombinedAppend(errs: Errors, e: Error)
    requires errs != []
    ensures CombinedMessage(errs + [e]) == CombinedMessage(errs) + Separator + ErrorText(e)
  {
    var all := errs + [e];
    CombinedSplit(all, |errs|);
    assert all[..|errs|] == errs;
    assert all[|errs|..] == [e];
  }

  /** A list holding one error reads exactly as that error. */
  lemma SingletonText(e: Error)
    ensures CombinedMessage([e]) == ErrorText(e) == e.message
  {
  }
}
