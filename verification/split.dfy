/**
 * split.c: breaks a string into the maximal runs of characters that are not
 * delimiters.  The result record `split_list` is a class whose `parts`
 * array has MAX_PARTS entries, NULL (`None`) past `count`.
 */
module Split {
  import opened Wrappers
  import opened Util

  /** `MAX_PARTS`: the size of the `parts` array of a split list. */
  const MaxParts: int := 255

  /** `default_delimiters()`: `split_default_delimiters`, the four
      white-space characters blank, tab, carriage return and new line. */
  function DefaultDelimiters(): (d: string)
    ensures |d| == 4
    ensures forall c :: c in d <==> c == ' ' || c == '\t' || c == '\r' || c == '\n'
  {
    " \t\r\n"
  }

  /** The delimiters `split` works with: `delim`, or the default set when
      `delim` is NULL or empty. */
  function Delimiters(delim: Option<string>): (d: string)
    ensures d != []
    ensures delim != None && delim.value != [] ==> d == delim.value
    ensures delim == None || delim.value == [] ==> d == DefaultDelimiters()
  {
    if delim == None || delim.value == [] then DefaultDelimiters() else delim.value
  }

  // ---------------------------------------------------------------------------
  // The tokens of a string
  // ---------------------------------------------------------------------------

  /** The tokens of `s`: its maximal runs of characters not in `d`, from left
      to right. */
  function Tokens(s: string, d: string): seq<string>
    decreases |s|
  {
    var a := FirstNotIn(s, d);
    if a == |s| then []
    else
      var rest := s[a..];
      var b := FirstIn(rest, d);
      [rest[..b]] + Tokens(rest[b..], d)
  }

  /** No token is empty and no token holds a delimiter. */
  lemma {:induction false} TokensShape(s: string, d: string)
    ensures forall k :: 0 <= k < |Tokens(s, d)| ==> Tokens(s, d)[k] != []
    ensures forall k, i :: 0 <= k < |Tokens(s, d)| && 0 <= i < |Tokens(s, d)[k]| ==> Tokens(s, d)[k][i] !in d
    decreases |s|
  {
    var a := FirstNotIn(s, d);
    if a < |s| {
      var rest := s[a..];
      var b := FirstIn(rest, d);
      TokensShape(rest[b..], d);
    }
  }

  /** A string yields no token exactly when it is made of delimiters only
      (the empty string included). */
  lemma TokensNone(s: string, d: string)
    ensures Tokens(s, d) == [] <==> forall i :: 0 <= i < |s| ==> s[i] in d
  {
  }

  /** Leading delimiters produce no token. */
  lemma TokensSkip(t: string, d: string)
    ensures Tokens(t[FirstNotIn(t, d)..], d) == Tokens(t, d)
  {
    var a := FirstNotIn(t, d);
    var u := t[a..];
    assert FirstNotIn(u, d) == 0;
    assert u[0..] == u;
  }

  /** A string that starts with a token yields that token first, then the
      tokens of what follows it. */
  lemma TokensFront(t: string, d: string)
    requires t != [] && t[0] !in d
    ensures 0 < FirstIn(t, d)
    ensures Tokens(t, d) == [t[..FirstIn(t, d)]] + Tokens(t[FirstIn(t, d)..], d)
  {
    assert FirstNotIn(t, d) == 0;
    assert t[0..] == t;
  }

  /** The token that starts at `p` runs up to the next delimiter, at `q`. */
  lemma TokensFrontAt(s: string, d: string, p: nat, q: nat)
    requires p < |s| && s[p] !in d && q == p + FirstIn(s[p..], d)
    ensures p < q <= |s| && Tokens(s[p..], d) == [s[p..q]] + Tokens(s[q..], d)
  {
    var t := s[p..];
    TokensFront(t, d);
    assert t[q - p..] == s[q..];
    assert t[..q - p] == s[p..q];
  }

  /** The delimiters from `q` up to `r` produce no token. */
  lemma TokensSkipAt(s: string, d: string, q: nat, r: nat)
    requires q <= |s| && r == q + FirstNotIn(s[q..], d)
    ensures q <= r <= |s| && (r < |s| ==> s[r] !in d)
    ensures Tokens(s[q..], d) == Tokens(s[r..], d)
  {
    TokensSkip(s[q..], d);
    assert s[q..][r - q..] == s[r..];
    assert r < |s| ==> s[r] == s[q..][r - q];
  }

  /** From the start `p` of a token, `split` takes the run up to the next
      delimiter, at `q`, and goes on at `r`, after the delimiters that
      follow it. */
  lemma TokensStep(s: string, d: string, p: nat, q: nat, r: nat)
    requires p < |s| && s[p] !in d
    requires q == p + FirstIn(s[p..], d) && r == q + FirstNotIn(s[q..], d)
    ensures p < q <= r <= |s| && (r < |s| ==> s[r] !in d)
    ensures Tokens(s[p..], d) == [s[p..q]] + Tokens(s[r..], d)
  {
    TokensFrontAt(s, d, p, q);
    TokensSkipAt(s, d, q, r);
  }

  // ---------------------------------------------------------------------------
  // Content of the tokens
  // ---------------------------------------------------------------------------

  /** The characters of `s` that are not delimiters, in order. */
  function Filter(s: string, d: string): string
  {
    if s == [] then [] else (if s[0] in d then [] else [s[0]]) + Filter(s[1..], d)
  }

  /** The tokens written one after the other. */
  function Flatten(ts: seq<string>): string
  {
    if ts == [] then [] else ts[0] + Flatten(ts[1..])
  }

  lemma {:induction false} FilterAppend(x: string, y: string, d: string)
    ensures Filter(x + y, d) == Filter(x, d) + Filter(y, d)
    decreases |x|
  {
    if x == [] {
      assert x + y == y;
    } else {
      var head := if x[0] in d then [] else [x[0]];
      assert (x + y)[0] == x[0] && (x + y)[1..] == x[1..] + y;
      assert Filter(x + y, d) == head + Filter(x[1..] + y, d);
      FilterAppend(x[1..], y, d);
      assert head + (Filter(x[1..], d) + Filter(y, d)) == (head + Filter(x[1..], d)) + Filter(y, d);
    }
  }

  lemma {:induction false} FilterDelimiters(x: string, d: string)
    requires forall i :: 0 <= i < |x| ==> x[i] in d
    ensures Filter(x, d) == []
    decreases |x|
  {
    if x != [] {
      FilterDelimiters(x[1..], d);
    }
  }

  lemma {:induction false} FilterKeeps(x: string, d: string)
    requires forall i :: 0 <= i < |x| ==> x[i] !in d
    ensures Filter(x, d) == x
    decreases |x|
  {
    if x != [] {
      FilterKeeps(x[1..], d);
      assert [x[0]] + x[1..] == x;
    }
  }

  /** The tokens hold exactly the characters of `s` that are not
      delimiters, in their order. */
  lemma {:induction false} TokensFilter(s: string, d: string)
    ensures Flatten(Tokens(s, d)) == Filter(s, d)
    decreases |s|
  {
    var a := FirstNotIn(s, d);
    assert s == s[..a] + s[a..];
    FilterAppend(s[..a], s[a..], d);
    FilterDelimiters(s[..a], d);
    if a < |s| {
      var rest := s[a..];
      var b := FirstIn(rest, d);
      assert rest == rest[..b] + rest[b..];
      FilterAppend(rest[..b], rest[b..], d);
      FilterKeeps(rest[..b], d);
      TokensFilter(rest[b..], d);
      var ts := [rest[..b]] + Tokens(rest[b..], d);
      assert ts[1..] == Tokens(rest[b..], d);
    }
  }

  // ---------------------------------------------------------------------------
  // Splitting a joined list gives the list back
  // ---------------------------------------------------------------------------

  /** The tokens written with the delimiter `c` between each two. */
  function Join(ts: seq<string>, c: char): string
  {
    if ts == [] then []
    else if |ts| == 1 then ts[0]
    else ts[0] + [c] + Join(ts[1..], c)
  }

  /** Tokens that are not empty and hold no delimiter. */
  predicate ValidTokens(ts: seq<string>, d: string)
  {
    forall k :: 0 <= k < |ts| ==> ts[k] != [] && forall i :: 0 <= i < |ts[k]| ==> ts[k][i] !in d
  }

  /** A leading delimiter produces no token. */
  lemma TokensLead(c: char, u: string, d: string)
    requires c in d
    ensures Tokens([c] + u, d) == Tokens(u, d)
  {
    var v := [c] + u;
    assert v[0] == c && v[1..] == u;
    assert FirstNotIn(v, d) == 1 + FirstNotIn(u, d);
    TokensSkip(v, d);
    TokensSkip(u, d);
    assert v[1 + FirstNotIn(u, d)..] == u[FirstNotIn(u, d)..];
  }

  /** A string that starts with the token `t` followed by a delimiter or
      its end yields `t` first. */
  lemma TokensFirst(t: string, u: string, d: string)
    requires t != [] && (forall i :: 0 <= i < |t| ==> t[i] !in d)
    requires u == [] || u[0] in d
    ensures Tokens(t + u, d) == [t] + Tokens(u, d)
  {
    var v := t + u;
    assert forall i :: 0 <= i < |t| ==> v[i] == t[i];
    assert |t| < |v| ==> v[|t|] == u[0];
    FirstInUnique(v, d, |t|);
    TokensFront(v, d);
    assert v[..|t|] == t && v[|t|..] == u;
  }

  /** Splitting tokens joined by a delimiter gives the tokens back. */
  lemma {:induction false} TokensJoin(ts: seq<string>, c: char, d: string)
    requires ValidTokens(ts, d) && c in d
    ensures Tokens(Join(ts, c), d) == ts
    decreases |ts|
  {
    if ts == [] {
    } else if |ts| == 1 {
      TokensFirst(ts[0], [], d);
      assert ts[0] + [] == ts[0];
    } else {
      var rest := Join(ts[1..], c);
      assert ValidTokens(ts[1..], d) by {
        forall k | 0 <= k < |ts| - 1 ensures ts[1..][k] == ts[k + 1] { }
      }
      assert Join(ts, c) == ts[0] + ([c] + rest);
      TokensFirst(ts[0], [c] + rest, d);
      TokensLead(c, rest, d);
      TokensJoin(ts[1..], c, d);
      assert ts == [ts[0]] + ts[1..];
    }
  }

  // ---------------------------------------------------------------------------
  // split_list and split
  // ---------------------------------------------------------------------------

  /** `split_list`: the tokens found and how many there are. */
  class SplitList {
    var count: int
    const parts: array<Option<string>>

    /** The record as `split` sets it up: no token yet, every part NULL. */
    constructor ()
      ensures count == 0 && parts.Length == MaxParts && fresh(parts)
      ensures forall i :: 0 <= i < parts.Length ==> parts[i] == None
    {
      count := 0;
      parts := new Option<string>[MaxParts](_ => None);
    }
  }

  /** `split(str, delim)`: a fresh split list holding the tokens of `str`
      for the delimiters of `delim` in its first `count` parts, every other
      part NULL; no token for a NULL `str`.  The source writes past
      MAX_PARTS unchecked, so callers must not pass more tokens. */
  method Split(str: Option<string>, delim: Option<string>) returns (ret: SplitList)
    requires str != None ==> |Tokens(str.value, Delimiters(delim))| <= MaxParts
    ensures fresh(ret) && fresh(ret.parts) && ret.parts.Length == MaxParts
    ensures ret.count == if str == None then 0 else |Tokens(str.value, Delimiters(delim))|
    ensures forall k :: 0 <= k < ret.count ==> ret.parts[k] == Some(Tokens(str.value, Delimiters(delim))[k])
    ensures forall k :: ret.count <= k < MaxParts ==> ret.parts[k] == None
  {
    var d := Delimiters(delim);
    ret := new SplitList();
    var i := 0;
    var at := FindFirstNotOf(str, d);
    if at != None {
      i := FillParts(str.value, d, at.value, ret.parts);
    }
    ret.count := i;
  }

  /** One turn of the loop of `split`: when the tokens from `p` on are the
      tokens `toks` from `i` on, the run [p, q) is token `i` and the tokens
      from `r` on are those from `i + 1` on. */
  lemma TokensNext(s: string, d: string, toks: seq<string>, i: nat, p: nat, q: nat, r: nat)
    requires p < |s| && s[p] !in d
    requires q == p + FirstIn(s[p..], d) && r == q + FirstNotIn(s[q..], d)
    requires i <= |toks| && Tokens(s[p..], d) == toks[i..]
    ensures i < |toks| && toks[i] == s[p..q] && Tokens(s[r..], d) == toks[i + 1..]
    ensures p < q <= r <= |s| && (r < |s| ==> s[r] !in d)
  {
    TokensStep(s, d, p, q, r);
    var later := Tokens(s[r..], d);
    assert toks[i..] == [s[p..q]] + later;
    assert toks[i..][0] == toks[i];
    assert toks[i..][1..] == toks[i + 1..];
    assert ([s[p..q]] + later)[1..] == later;
  }

  /** The loop of `split`: from the first character of `s` that is not a
      delimiter, stores each token of `s` in the next part, and returns how
      many it stored. */
  method FillParts(s: string, d: string, start: nat, parts: array<Option<string>>) returns (i: nat)
    requires start == FirstNotIn(s, d)
    requires parts.Length == MaxParts && |Tokens(s, d)| <= MaxParts
    requires forall k :: 0 <= k < parts.Length ==> parts[k] == None
    modifies parts
    ensures i == |Tokens(s, d)|
    ensures forall k :: 0 <= k < i ==> parts[k] == Some(Tokens(s, d)[k])
    ensures forall k :: i <= k < parts.Length ==> parts[k] == None
  {
    ghost var toks := Tokens(s, d);
    var p := start;
    i := 0;
    TokensSkip(s, d);
    while p < |s|
      invariant 0 <= p <= |s| && (p < |s| ==> s[p] !in d)
      invariant 0 <= i <= |toks| && Tokens(s[p..], d) == toks[i..]
      invariant forall k :: 0 <= k < i ==> parts[k] == Some(toks[k])
      invariant forall k :: i <= k < parts.Length ==> parts[k] == None
      decreases |s| - p
    {
      i, p := TakeToken(s, d, parts, i, p, toks);
    }
    assert s[|s|..] == [];
  }

  /** One turn of the loop of `split`: stores the token that starts at `p`
      in part `i` and moves past it and the delimiters that follow it. */
  method TakeToken(s: string, d: string, parts: array<Option<string>>, i: nat, p: nat, ghost toks: seq<string>)
    returns (i': nat, p': nat)
    requires p < |s| && s[p] !in d
    requires i <= |toks| <= parts.Length && Tokens(s[p..], d) == toks[i..]
    requires forall k :: 0 <= k < i ==> parts[k] == Some(toks[k])
    requires forall k :: i <= k < parts.Length ==> parts[k] == None
    modifies parts
    ensures i' == i + 1 && p < p' <= |s| && (p' < |s| ==> s[p'] !in d)
    ensures i' <= |toks| && Tokens(s[p'..], d) == toks[i'..]
    ensures forall k :: 0 <= k < i' ==> parts[k] == Some(toks[k])
    ensures forall k :: i' <= k < parts.Length ==> parts[k] == None
  {
    var pos := FindFirstOf(Some(s[p..]), d);
    var q := p + pos.value;
    var next := FindFirstNotOf(Some(s[q..]), d);
    p' := q + next.value;
    TokensNext(s, d, toks, i, p, q, p');
    parts[i] := Some(s[p..q]);
    i' := i + 1;
  }
}
