/** strtok_r: the maximal runs of characters that are no delimiters. */
module Tokenizer {
  import opened HttpTypes

  // The C string that begins some bytes: what stands before their first terminator.
  function UpToNul(s: string): (r: string)
    ensures NoNul(r) && |r| <= |s|
  {
    if s == "" || s[0] == '\0' then "" else [s[0]] + UpToNul(s[1..])
  }

  lemma {:induction false} UpToNulSame(s: string)
    requires NoNul(s)
    ensures UpToNul(s) == s
  {
    if s != "" {
      UpToNulSame(s[1..]);
    }
  }

  // What stands behind the terminator does not matter.
  lemma {:induction false} UpToNulCuts(s: string, rest: string)
    requires NoNul(s)
    ensures UpToNul(s + "\0" + rest) == s
  {
    if s != "" {
      assert (s + "\0" + rest)[1..] == s[1..] + "\0" + rest;
      UpToNulCuts(s[1..], rest);
    }
  }

  predicate Free(s: string, delims: string) { forall i :: 0 <= i < |s| ==> s[i] !in delims }

  // The length of the first run.
  function Span(s: string, delims: string): (n: nat)
    ensures n <= |s| && Free(s[..n], delims) && (n < |s| ==> s[n] in delims)
  {
    if s == "" || s[0] in delims then 0
    else
      var n := 1 + Span(s[1..], delims);
      assert forall i :: 1 <= i < n ==> s[i] == s[1..][..n - 1][i - 1];
      n
  }

  // The length of the delimiters before it.
  function Skipped(s: string, delims: string): (n: nat)
    ensures n <= |s| && (n < |s| ==> s[n] !in delims)
  {
    if s == "" || s[0] !in delims then 0 else 1 + Skipped(s[1..], delims)
  }

  function Tokens(s: string, delims: string): seq<string>
    decreases |s|
  {
    if s == "" then []
    else if s[0] in delims then Tokens(s[1..], delims)
    else
      var n := Span(s, delims);
      assert n > 0;
      [s[..n]] + Tokens(s[n..], delims)
  }

  lemma {:induction false} TokensSkip(s: string, delims: string)
    ensures Tokens(s, delims) == Tokens(s[Skipped(s, delims)..], delims)
  {
    if s != "" && s[0] in delims {
      TokensSkip(s[1..], delims);
      assert s[Skipped(s, delims)..] == s[1..][Skipped(s[1..], delims)..];
    } else {
      assert s[0..] == s;
    }
  }

  // One call: the next token and where to go on, or nothing.
  method StrTok(s: string, from: nat, delims: string) returns (token: Option<string>, next: nat)
    requires from <= |s|
    ensures from <= next <= |s|
    ensures match token
            case None => Tokens(s[from..], delims) == []
            case Some(t) => t != "" && Tokens(s[from..], delims) == [t] + Tokens(s[next..], delims) && from < next
  {
    var rest := s[from..];
    TokensSkip(rest, delims);
    var start := Skipped(rest, delims);
    var run := rest[start..];
    if run == "" {
      return None, from;
    }
    var n := Span(run, delims);
    assert run[0] == rest[start];
    next := from + start + n;
    assert s[next..] == run[n..];
    return Some(run[..n]), next;
  }

  lemma {:induction false} SpanOf(a: string, b: string, delims: string)
    requires Free(a, delims) && (b != "" ==> b[0] in delims)
    ensures Span(a + b, delims) == |a|
  {
    if a != "" {
      assert (a + b)[1..] == a[1..] + b;
      SpanOf(a[1..], b, delims);
    } else {
      assert a + b == b;
    }
  }

  // A run that is closed by a delimiter is the first token.
  lemma FirstToken(a: string, b: string, delims: string)
    requires a != "" && Free(a, delims) && (b != "" ==> b[0] in delims)
    ensures Tokens(a + b, delims) == [a] + Tokens(b, delims)
  {
    SpanOf(a, b, delims);
    assert (a + b)[0] == a[0];
    assert (a + b)[..|a|] == a && (a + b)[|a|..] == b;
  }

  lemma OneDelimiter(c: char, b: string, delims: string)
    requires c in delims
    ensures Tokens([c] + b, delims) == Tokens(b, delims)
  {
    assert ([c] + b)[1..] == b;
  }
}
