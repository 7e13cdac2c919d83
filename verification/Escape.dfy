/** Quoting of string values in a configuration file: a printer into a buffer of
    precomputed size, and a reader that unquotes inside the line buffer. */
module Escape {
  import opened Wrappers

  predicate Special(c: char) { c == '"' || c == '\\' }

  ghost predicate Plain(s: string) { forall c :: c in s ==> !Special(c) }

  /** What stands between the quotes. */
  function Body(s: string): string {
    if s == "" then ""
    else if Special(s[0]) then ['\\', s[0]] + Body(s[1..])
    else [s[0]] + Body(s[1..])
  }

  function Quoted(s: string): string { "\"" + Body(s) + "\"" }

  /** The text before the first quote that no backslash precedes, each backslash dropped
      and the character after it kept; None if there is no such quote. */
  function Unquote(s: string): Option<string> {
    if s == "" then None
    else if s[0] == '"' then Some("")
    else if s[0] != '\\' then Lift([s[0]], Unquote(s[1..]))
    else if |s| == 1 then None
    else Lift([s[1]], Unquote(s[2..]))
  }

  function Lift(head: string, tail: Option<string>): Option<string> {
    if tail.None? then None else Some(head + tail.value)
  }

  /** Reading undoes writing, whatever follows the closing quote. */
  lemma {:induction false} UnquoteUndoesQuoting(s: string, after: string)
    ensures Unquote(Body(s) + "\"" + after) == Some(s)
  {
    if s == "" {
      assert Body(s) + "\"" + after == "\"" + after;
    } else {
      UnquoteUndoesQuoting(s[1..], after);
      var head := if Special(s[0]) then ['\\', s[0]] else [s[0]];
      var rest := Body(s[1..]) + "\"" + after;
      assert Body(s) + "\"" + after == head + rest;
      assert (head + rest)[|head|..] == rest;
      assert [s[0]] + s[1..] == s;
    }
  }

  lemma {:induction false} BodyPlain(s: string, c: char)
    requires c !in s && !Special(c)
    ensures c !in Body(s)
  {
    if s != "" {
      BodyPlain(s[1..], c);
    }
  }

  lemma {:induction false} BodyCat(s: string, t: string)
    ensures Body(s + t) == Body(s) + Body(t)
  {
    if s == "" {
      assert s + t == t;
    } else {
      BodyCat(s[1..], t);
      assert (s + t)[1..] == s[1..] + t;
      var head := if Special(s[0]) then ['\\', s[0]] else [s[0]];
      assert head + (Body(s[1..]) + Body(t)) == head + Body(s[1..]) + Body(t);
    }
  }

  lemma {:induction false} BodySame(s: string)
    requires Plain(s)
    ensures Body(s) == s
  {
    if s != "" {
      BodySame(s[1..]);
    }
  }

  // ----- printing -----

  /** strcspn: how far from i no quote and no backslash comes. */
  function Span(s: string, i: nat): (n: nat)
    requires i <= |s|
    ensures i + n <= |s| && (i + n < |s| ==> Special(s[i + n]))
    ensures Plain(s[i..i + n])
    decreases |s| - i
  {
    if i == |s| || Special(s[i]) then 0
    else assert s[i..i + 1 + Span(s, i + 1)] == [s[i]] + s[i + 1..i + 1 + Span(s, i + 1)]; 1 + Span(s, i + 1)
  }

  lemma BodyChunk(s: string, p: nat, l: nat)
    requires p + l <= |s| && Plain(s[p..p + l])
    ensures Body(s[..p + l]) == Body(s[..p]) + s[p..p + l]
  {
    BodyCat(s[..p], s[p..p + l]);
    BodySame(s[p..p + l]);
    assert s[..p] + s[p..p + l] == s[..p + l];
  }

  lemma BodyStep(s: string, p: nat)
    requires p < |s| && Special(s[p])
    ensures Body(s[..p + 1]) == Body(s[..p]) + ['\\', s[p]]
  {
    BodyCat(s[..p], [s[p]]);
    assert s[..p] + [s[p]] == s[..p + 1];
    assert Body([s[p]]) == ['\\', s[p]] + Body([s[p]][1..]);
  }

  lemma {:induction false} BodyGrows(s: string, p: nat)
    requires p <= |s|
    ensures |Body(s[..p])| <= |Body(s)|
  {
    BodyCat(s[..p], s[p..]);
    assert s[..p] + s[p..] == s;
  }

  /** strcat: the characters and a new terminator, at the old terminator. */
  method Append(buf: array<char>, end: nat, s: string) returns (end': nat)
    requires end + |s| < buf.Length
    modifies buf
    ensures end' == end + |s|
    ensures buf[..end'] == old(buf[..end]) + s && buf[end'] == '\0'
  {
    forall i | 0 <= i < |s| {
      buf[end + i] := s[i];
    }
    end' := end + |s|;
    buf[end'] := '\0';
  }

  /** The first loop: the size the result needs, with its terminator. */
  method EscapedSize(s: string) returns (reslen: nat)
    ensures reslen == |Quoted(s)| + 1
  {
    reslen := |s| + 2 + 1;
    var p := 0;
    assert s[..0] == "";
    while true
      invariant 0 <= p <= |s|
      invariant reslen == |Body(s[..p])| + (|s| - p) + 3
      decreases |s| - p
    {
      var l := Span(s, p);
      BodyChunk(s, p, l);
      p := p + l;
      if p == |s| {
        assert s[..p] == s;
        break;
      }
      BodyStep(s, p);
      reslen := reslen + 1;
      p := p + 1;
    }
  }

  /** The buffer holds the opening quote and the escaped form of the first p characters. */
  ghost predicate Printed(buf: seq<char>, end: nat, s: string, p: nat) {
    p <= |s| && end == 1 + |Body(s[..p])| <= |buf| && buf[..end] == "\"" + Body(s[..p])
  }

  /** A run of plain characters is copied as it stands. */
  method PrintPlain(res: array<char>, end: nat, s: string, p: nat, l: nat) returns (end': nat)
    requires Printed(res[..], end, s, p) && p + l <= |s| && Plain(s[p..p + l]) && res.Length == |Quoted(s)| + 1
    modifies res
    ensures Printed(res[..], end', s, p + l)
  {
    BodyChunk(s, p, l);
    BodyGrows(s, p + l);
    hide Body; hide Plain;
    end' := Append(res, end, s[p..p + l]);
    assert "\"" + Body(s[..p]) + s[p..p + l] == "\"" + (Body(s[..p]) + s[p..p + l]);
    assert res[..][..end'] == res[..end'];
  }

  /** A quote or backslash gets a backslash before it. */
  method PrintSpecial(res: array<char>, end: nat, s: string, p: nat) returns (end': nat)
    requires Printed(res[..], end, s, p) && p < |s| && Special(s[p]) && res.Length == |Quoted(s)| + 1
    modifies res
    ensures Printed(res[..], end', s, p + 1)
  {
    BodyStep(s, p);
    BodyGrows(s, p + 1);
    hide Body;
    end' := Append(res, end, "\\");
    end' := Append(res, end', [s[p]]);
    assert "\"" + Body(s[..p]) + "\\" + [s[p]] == "\"" + (Body(s[..p]) + ['\\', s[p]]);
    assert res[..][..end'] == res[..end'];
  }

  /** sym_escape_string_value: the buffer of the precomputed size is filled exactly, its
      last cell by the terminator. */
  method EscapeValue(s: string) returns (res: array<char>)
    ensures fresh(res) && res[..] == Quoted(s) + ['\0']
  {
    var reslen := EscapedSize(s);
    res := new char[reslen];
    res[0] := '\0';
    var end := Append(res, 0, "\"");
    var p := 0;
    assert s[..0] == "" && Body("") == "";
    assert Printed(res[..], end, s, p);
    hide Body; hide Plain;
    while true
      invariant 0 <= p <= |s| && Printed(res[..], end, s, p)
      decreases |s| - p
    {
      var l := Span(s, p);
      end := PrintPlain(res, end, s, p, l);
      p := p + l;
      if p == |s| {
        break;
      }
      end := PrintSpecial(res, end, s, p);
      p := p + 1;
    }
    assert s[..p] == s;
    end := Append(res, end, "\"");
    assert res[..] == res[..end] + [res[end]];
  }

  // ----- reading -----

  /** A terminated string in a buffer. */
  ghost predicate CString(a: seq<char>, i: nat, s: string) {
    i + |s| < |a| && a[i..i + |s|] == s && a[i + |s|] == '\0' && '\0' !in s
  }

  lemma CStringChars(a: seq<char>, i: nat, s: string)
    requires CString(a, i, s)
    ensures forall j :: i <= j < i + |s| ==> a[j] == s[j - i] && a[j] != '\0'
  {
    forall j | i <= j < i + |s| ensures a[j] == s[j - i] && a[j] != '\0' {
      assert a[i..i + |s|][j - i] == s[j - i];
    }
  }

  /** memmove by one place to the left, of n characters. */
  method MoveDown(a: array<char>, p: nat, n: nat)
    requires p + n < a.Length
    modifies a
    ensures forall i :: 0 <= i < a.Length && !(p <= i < p + n) ==> a[i] == old(a[i])
    ensures forall i :: p <= i < p + n ==> a[i] == old(a[i + 1])
  {
    forall i | p <= i < p + n {
      a[i] := a[i + 1];
    }
  }

  /** strpbrk: the next quote or backslash of the string at p, if there is one. */
  method FindSpecial(a: array<char>, p: nat, ghost rest: string) returns (q: nat, found: bool)
    requires CString(a[..], p, rest)
    ensures found ==> q < p + |rest| && Special(a[q])
    ensures p <= q <= p + |rest| && (!found ==> q == p + |rest|)
    ensures Plain(rest[..q - p])
  {
    q := p;
    CStringChars(a[..], p, rest);
    while a[q] != '\0'
      invariant p <= q <= p + |rest|
      invariant Plain(rest[..q - p])
      decreases p + |rest| - q
    {
      assert a[..][q] == a[q];
      if Special(a[q]) {
        return q, true;
      }
      assert rest[..q + 1 - p] == rest[..q - p] + [rest[q - p]];
      q := q + 1;
    }
    assert a[..][q] == a[q];
    return q, false;
  }

  lemma {:induction false} UnquoteSkips(s: string, n: nat)
    requires n <= |s| && Plain(s[..n])
    ensures Unquote(s) == Lift(s[..n], Unquote(s[n..]))
  {
    if n == 0 {
      assert s[..0] == "" && s[0..] == s;
      if Unquote(s).Some? { assert "" + Unquote(s).value == Unquote(s).value; }
    } else {
      assert s[0] in s[..n];
      assert forall c :: c in s[1..][..n - 1] ==> c in s[..n];
      UnquoteSkips(s[1..], n - 1);
      assert s[1..][n - 1..] == s[n..];
      assert [s[0]] + s[1..][..n - 1] == s[..n];
      LiftLift([s[0]], s[1..][..n - 1], Unquote(s[n..]));
    }
  }

  lemma LiftLift(s: string, t: string, u: Option<string>)
    ensures Lift(s, Lift(t, u)) == Lift(s + t, u)
  {
    if u.Some? {
      assert s + (t + u.value) == s + t + u.value;
    }
  }

  lemma CStringDrop(a: seq<char>, i: nat, s: string, n: nat)
    requires CString(a, i, s) && n <= |s|
    ensures CString(a, i + n, s[n..])
  {
    assert a[i..i + |s|][n..] == a[i + n..i + |s|];
  }

  /** strlen. */
  method StrLen(a: array<char>, i: nat, ghost s: string) returns (n: nat)
    requires CString(a[..], i, s)
    ensures n == |s|
  {
    CStringChars(a[..], i, s);
    n := 0;
    while a[i + n] != '\0'
      invariant n <= |s|
      decreases |s| - n
    {
      assert a[..][i + n] == a[i + n];
      n := n + 1;
    }
    assert a[..][i + n] == a[i + n];
  }

  /** Dropping the backslash at q: the character after it stays, and the reader goes on
      behind that one. */
  method DropBackslash(a: array<char>, q: nat, ghost rest: string) returns (q': nat, ghost kept: string, ghost tail: string)
    requires CString(a[..], q, rest) && rest != "" && rest[0] == '\\'
    modifies a
    ensures q' == q + 1 && |kept| == 1 && q' + |tail| <= q + |rest| && CString(a[..], q', tail) && a[q] == kept[0]
    ensures Unquote(rest) == Lift(kept, Unquote(tail))
    ensures tail == "" || '\0' !in kept
    ensures forall i :: 0 <= i < a.Length && !(q <= i < q + |rest|) ==> a[i] == old(a[i])
  {
    var n := StrLen(a, q, rest);
    CStringChars(a[..], q, rest);
    ghost var was := a[..];
    MoveDown(a, q, n);
    q' := q + 1;
    kept := [was[q + 1]];
    tail := if |rest| == 1 then "" else rest[2..];
    assert a[q' + |tail|] == '\0';
    assert a[..][q'..q' + |tail|] == tail;
  }

  /** How far the reader has come: what stands before p2 is unquoted, and what stands
      from p2 on is still to be read. */
  ghost predicate Reading(a: seq<char>, p: nat, p2: nat, s: string, out: string, rest: string) {
    && p <= p2 && p2 + |rest| <= p + |s| < |a|
    && CString(a, p2, rest) && a[p..p2] == out && (rest == "" || '\0' !in out)
    && Unquote(s) == Lift(out, Unquote(rest))
  }

  lemma ReadingSkips(a: seq<char>, p: nat, p2: nat, s: string, out: string, rest: string, n: nat)
    requires Reading(a, p, p2, s, out, rest) && n <= |rest| && Plain(rest[..n])
    ensures Reading(a, p, p2 + n, s, out + rest[..n], rest[n..])
  {
    UnquoteSkips(rest, n);
    LiftLift(out, rest[..n], Unquote(rest[n..]));
    CStringPrefix(a, p2, rest, n);
    CStringDrop(a, p2, rest, n);
    assert a[p..p2 + n] == a[p..p2] + a[p2..p2 + n];
  }

  lemma ReadingGoesOn(a: seq<char>, b: seq<char>, p: nat, q: nat, s: string, out: string, rest: string,
                      kept: string, tail: string)
    requires Reading(a, p, q, s, out, rest) && rest != "" && |kept| == 1 && |a| == |b|
    requires q + 1 + |tail| <= q + |rest| && CString(b, q + 1, tail) && b[q] == kept[0]
    requires Unquote(rest) == Lift(kept, Unquote(tail)) && (tail == "" || '\0' !in kept)
    requires forall i :: 0 <= i < |a| && !(q <= i < q + |rest|) ==> b[i] == a[i]
    ensures Reading(b, p, q + 1, s, out + kept, tail)
  {
    hide CString; hide Unquote; hide Lift;
    LiftLift(out, kept, Unquote(tail));
    SamePiece(a, b, p, q);
    GrownPiece(b, p, q, kept);
  }

  lemma SamePiece(a: seq<char>, b: seq<char>, p: nat, q: nat)
    requires p <= q <= |a| == |b| && forall i :: p <= i < q ==> b[i] == a[i]
    ensures b[p..q] == a[p..q]
  {}

  lemma GrownPiece(b: seq<char>, p: nat, q: nat, kept: string)
    requires p <= q < |b| && kept == [b[q]]
    ensures b[p..q + 1] == b[p..q] + kept
  {}

  /** Nothing changed but the places lo to hi. */
  ghost predicate SameOutside(a: seq<char>, b: seq<char>, lo: nat, hi: nat) {
    |a| == |b| && forall i :: 0 <= i < |a| && !(lo <= i <= hi) ==> a[i] == b[i]
  }

  lemma SameOutsideTwice(a: seq<char>, b: seq<char>, c: seq<char>, lo: nat, hi: nat)
    requires SameOutside(a, b, lo, hi) && SameOutside(b, c, lo, hi)
    ensures SameOutside(a, c, lo, hi)
  {}

  /** The loop of the reader: unquoting moves characters down inside the line buffer and
      terminates the string at the closing quote. */
  method UnquoteInPlace(a: array<char>, p: nat, ghost s: string) returns (closed: bool)
    requires CString(a[..], p, s)
    modifies a
    ensures closed <==> Unquote(s).Some?
    ensures closed ==> CString(a[..], p, Unquote(s).value)
    ensures SameOutside(old(a[..]), a[..], p, p + |s|)
  {
    var p2 := p;
    ghost var out, rest := "", s;
    assert Unquote(s).Some? ==> "" + Unquote(s).value == Unquote(s).value;
    assert Reading(a[..], p, p2, s, out, rest);
    ghost var orig := a[..];
    hide Unquote; hide Reading; hide Special; hide CString; hide Plain;
    assert SameOutside(orig, a[..], p, p + |s|);
    hide SameOutside;
    while true
      invariant Reading(a[..], p, p2, s, out, rest)
      invariant SameOutside(orig, a[..], p, p + |s|)
      decreases |rest|
    {
      ghost var was := a[..];
      var q, found;
      q, found, out, rest := Scan(a, p, p2, s, out, rest);
      if !found {
        return false;
      }
      if a[q] == '"' {
        Close(a, p, q, s, out);
        SameOutsideTwice(orig, was, a[..], p, p + |s|);
        return true;
      }
      p2, out, rest := PassBackslash(a, p, q, s, out, rest);
      SameOutsideTwice(orig, was, a[..], p, p + |s|);
    }
  }

  /** From p2 to the next quote or backslash. */
  method Scan(a: array<char>, p: nat, p2: nat, ghost s: string, ghost out: string, ghost rest: string)
    returns (q: nat, found: bool, ghost out': string, ghost rest': string)
    requires Reading(a[..], p, p2, s, out, rest)
    ensures Reading(a[..], p, q, s, out', rest') && |rest'| <= |rest|
    ensures !found ==> Unquote(s) == None
    ensures found ==> q < a.Length && rest' != "" && (a[q] == '"' || (a[q] == '\\' && rest'[0] == '\\'))
    ensures found && a[q] == '"' ==> p <= q <= p + |s| && a[p..q] == out' && '\0' !in out' && Unquote(s) == Some(out')
  {
    ReadingIs(a[..], p, p2, s, out, rest);
    hide Unquote; hide Reading; hide Special; hide CString; hide Plain;
    q, found := FindSpecial(a, p2, rest);
    ReadingSkips(a[..], p, p2, s, out, rest, q - p2);
    out', rest' := out + rest[..q - p2], rest[q - p2..];
    ReadingIs(a[..], p, q, s, out', rest');
    if found {
      UnquoteHead(a[..], q, rest');
      assert out' + "" == out';
    } else {
      UnquoteEnds(rest');
    }
  }

  method Close(a: array<char>, p: nat, q: nat, ghost s: string, ghost out: string)
    requires p <= q < a.Length && q <= p + |s| && a[p..q] == out && '\0' !in out
    modifies a
    ensures CString(a[..], p, out) && SameOutside(old(a[..]), a[..], p, p + |s|)
  {
    a[q] := '\0';
  }

  method PassBackslash(a: array<char>, p: nat, q: nat, ghost s: string, ghost out: string, ghost rest: string)
    returns (q': nat, ghost out': string, ghost rest': string)
    requires Reading(a[..], p, q, s, out, rest) && rest != "" && rest[0] == '\\'
    modifies a
    ensures Reading(a[..], p, q', s, out', rest') && |rest'| < |rest|
    ensures SameOutside(old(a[..]), a[..], p, p + |s|)
  {
    ghost var kept, tail;
    ghost var was := a[..];
    q', kept, tail := DropBackslash(a, q, rest);
    ReadingGoesOn(was, a[..], p, q, s, out, rest, kept, tail);
    out', rest' := out + kept, tail;
  }

  lemma ReadingIs(a: seq<char>, p: nat, p2: nat, s: string, out: string, rest: string)
    requires Reading(a, p, p2, s, out, rest)
    ensures p <= p2 && p2 + |rest| <= p + |s| < |a| && CString(a, p2, rest)
    ensures |out| == p2 - p && a[p..p2] == out && (rest == "" || '\0' !in out)
    ensures Unquote(s) == Lift(out, Unquote(rest))
  {}

  lemma CStringPrefix(a: seq<char>, i: nat, s: string, n: nat)
    requires CString(a, i, s) && n <= |s|
    ensures i + |s| < |a| && a[i..i + n] == s[..n] && '\0' !in s
  {
    assert a[i..i + |s|][..n] == a[i..i + n];
  }

  lemma UnquoteEnds(s: string)
    requires s == ""
    ensures Unquote(s) == None
  {}

  lemma UnquoteHead(a: seq<char>, q: nat, s: string)
    requires CString(a, q, s) && s != "" && Special(a[q])
    ensures s[0] == a[q] && (s[0] == '"' || s[0] == '\\')
    ensures s[0] == '"' ==> Unquote(s) == Some("")
  {
    assert a[q..q + |s|][0] == a[q];
  }
}
