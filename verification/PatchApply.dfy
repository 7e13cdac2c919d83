/** Applying unified-diff hunks to a stream of lines, and telling a file to which they
    have been applied already. */
module PatchApply {
  import opened PatchTypes

  // ----- lines -----

  /** rstrip("\r\n"). */
  function RStrip(s: string): string
    decreases |s|
  {
    if s != "" && (s[|s| - 1] == '\r' || s[|s| - 1] == '\n') then RStrip(s[..|s| - 1]) else s
  }

  function Marked(l: string, c: char): bool { l != "" && l[0] == c }

  function Tail(l: string): string { if l == "" then "" else l[1..] }

  /** A line to write, with the line end of the source if that has shown only one kind. */
  function Fit(e: Ends, line: string): string {
    if e.lf != 0 && e.crlf == 0 && e.cr == 0 then RStrip(line) + "\n"
    else if e.lf == 0 && e.crlf != 0 && e.cr == 0 then RStrip(line) + "\r\n"
    else if e.lf == 0 && e.crlf == 0 && e.cr != 0 then RStrip(line) + "\r"
    else line
  }

  // ----- patch_stream, for any input -----

  /** How many lines have been asked for, and the line ends among them. */
  datatype Cursor = Cursor(read: nat, ends: Ends)

  const START := Cursor(0, Ends(0, 0, 0))

  /** readline: an empty string past the end. */
  function NextLine(src: seq<string>, c: Cursor): string {
    if c.read < |src| then src[c.read] else ""
  }

  function Took(src: seq<string>, c: Cursor): Cursor {
    Cursor(c.read + 1, CountEnd(c.ends, NextLine(src, c)))
  }

  datatype Run = Run(out: seq<string>, at: Cursor)

  /** Copying up to the line before a hunk. */
  function SkipTo(src: seq<string>, c: Cursor, start: nat): Run
    decreases start - c.read
  {
    if c.read + 1 >= start then Run([], c)
    else
      var r := SkipTo(src, Took(src, c), start);
      Run([NextLine(src, c)] + r.out, r.at)
  }

  /** One line of a hunk's body. */
  function BodyLine(src: seq<string>, c: Cursor, l: string): Run {
    if Marked(l, '-') || Marked(l, '\\') then Run([], Took(src, c))
    else
      var c1 := if Marked(l, '+') then c else Took(src, c);
      Run([Fit(c1.ends, Tail(l))], c1)
  }

  function Then(r: Run, s: Run): Run { Run(r.out + s.out, s.at) }

  function Body(src: seq<string>, c: Cursor, text: seq<string>): Run
    decreases |text|
  {
    if text == [] then Run([], c)
    else
      var r := BodyLine(src, c, text[0]);
      Then(r, Body(src, r.at, text[1..]))
  }

  function OneHunk(src: seq<string>, c: Cursor, h: Hunk): Run {
    var r := SkipTo(src, c, h.startsrc);
    Then(r, Body(src, r.at, h.text))
  }

  function Hunks(src: seq<string>, c: Cursor, hunks: seq<Hunk>): Run
    decreases |hunks|
  {
    if hunks == [] then Run([], c)
    else
      var r := OneHunk(src, c, hunks[0]);
      Then(r, Hunks(src, r.at, hunks[1..]))
  }

  function Unread(src: seq<string>, c: Cursor): seq<string> {
    if c.read <= |src| then src[c.read..] else []
  }

  function Streamed(src: seq<string>, hunks: seq<Hunk>): seq<string> {
    var r := Hunks(src, START, hunks);
    r.out + Unread(src, r.at)
  }

  lemma ThenThen(r: Run, s: Run, t: Run)
    ensures Then(Then(r, s), t) == Then(r, Then(s, t))
  {
    assert r.out + s.out + t.out == r.out + (s.out + t.out);
  }

  lemma ThenNothing(r: Run, c: Cursor)
    requires c == r.at
    ensures Then(r, Run([], c)) == r && Then(Run([], c), r) == r
  {
    assert r.out + [] == r.out && [] + r.out == r.out;
  }

  /** patch_stream. */
  method PatchStream(src: seq<string>, hunks: seq<Hunk>) returns (out: seq<string>)
    ensures out == Streamed(src, hunks)
  {
    out := [];
    var c := START;
    ThenNothing(Hunks(src, START, hunks), Hunks(src, START, hunks).at);
    assert hunks[0..] == hunks && hunks[|hunks|..] == [];
    hide Body; hide SkipTo; hide Unread;
    for k := 0 to |hunks|
      invariant Then(Run(out, c), Hunks(src, c, hunks[k..])) == Hunks(src, START, hunks)
    {
      var h := hunks[k];
      assert hunks[k..][0] == h && hunks[k..][1..] == hunks[k + 1..];
      var o, c1 := CopyTo(src, c, h.startsrc);
      var p, c2 := WriteBody(src, c1, h.text);
      ThenThen(Run(out, c), Then(Run(o, c1), Run(p, c2)), Hunks(src, c2, hunks[k + 1..]));
      ThenThen(Run(out, c), Run(o, c1), Run(p, c2));
      out, c := out + o + p, c2;
    }
    ThenNothing(Run(out, c), c);
    out := out + Unread(src, c);
  }

  method CopyTo(src: seq<string>, from: Cursor, start: nat) returns (out: seq<string>, c: Cursor)
    ensures Run(out, c) == SkipTo(src, from, start)
  {
    out, c := [], from;
    ThenNothing(SkipTo(src, from, start), SkipTo(src, from, start).at);
    while c.read + 1 < start
      invariant Then(Run(out, c), SkipTo(src, c, start)) == SkipTo(src, from, start)
      decreases start - c.read
    {
      var line, c1 := NextLine(src, c), Took(src, c);
      ThenThen(Run(out, c), Run([line], c1), SkipTo(src, c1, start));
      out, c := out + [line], c1;
    }
    ThenNothing(Run(out, c), c);
  }

  method WriteBody(src: seq<string>, from: Cursor, text: seq<string>) returns (out: seq<string>, c: Cursor)
    ensures Run(out, c) == Body(src, from, text)
  {
    out, c := [], from;
    ThenNothing(Body(src, from, text), Body(src, from, text).at);
    assert text[0..] == text && text[|text|..] == [];
    hide Fit;
    for k := 0 to |text|
      invariant Then(Run(out, c), Body(src, c, text[k..])) == Body(src, from, text)
    {
      var l := text[k];
      assert text[k..][0] == l && text[k..][1..] == text[k + 1..];
      ghost var r := BodyLine(src, c, l);
      ThenThen(Run(out, c), r, Body(src, r.at, text[k + 1..]));
      if Marked(l, '-') || Marked(l, '\\') {
        c := Took(src, c);
        ThenNothing(Run(out, c), c);
      } else {
        if !Marked(l, '+') {
          c := Took(src, c);
        }
        out := out + [Fit(c.ends, Tail(l))];
      }
    }
    ThenNothing(Run(out, c), c);
  }

  // ----- what a hunk says -----

  function OldLines(text: seq<string>): seq<string> {
    if text == [] then []
    else (if Marked(text[0], '-') || Marked(text[0], ' ') then [Tail(text[0])] else []) + OldLines(text[1..])
  }

  function NewLines(text: seq<string>): seq<string> {
    if text == [] then []
    else (if Marked(text[0], '+') || Marked(text[0], ' ') then [Tail(text[0])] else []) + NewLines(text[1..])
  }

  predicate LfLine(l: string) { RStrip(l) + "\n" == l }

  /** A body line of the plain kind: removed, added or kept, and ended by a newline. */
  predicate PlainLine(l: string) {
    (Marked(l, '-') || Marked(l, '+') || Marked(l, ' ')) && LfLine(Tail(l))
  }

  /** The number of source lines before a hunk.  A range of no lines is given, in a unified
      diff, by the number of the line before it. */
  function Before(start: nat, lines: nat): int { if lines == 0 then start else start - 1 }

  /** The counts of the header are those of the body, and the body is plain. */
  predicate WellFormed(h: Hunk) {
    && (forall l :: l in h.text ==> PlainLine(l))
    && h.linessrc == |OldLines(h.text)| && h.linestgt == |NewLines(h.text)|
  }

  /** The hunks match the source from line pos on: in order and without overlap, and the
      source has the lines they remove and keep. */
  predicate Matches(src: seq<string>, pos: nat, hunks: seq<Hunk>)
    ensures Matches(src, pos, hunks) && hunks != [] ==> pos <= |src|
    decreases |hunks|
  {
    hunks == [] ||
    var h := hunks[0];
    var b := Before(h.startsrc, h.linessrc);
    && WellFormed(h) && pos <= b && b + h.linessrc <= |src|
    && src[b..b + h.linessrc] == OldLines(h.text)
    && Matches(src, b + h.linessrc, hunks[1..])
  }

  /** The target numbers are the source numbers plus what earlier hunks added. */
  predicate Numbered(delta: int, hunks: seq<Hunk>)
    decreases |hunks|
  {
    hunks == [] ||
    var h := hunks[0];
    && Before(h.starttgt, h.linestgt) == Before(h.startsrc, h.linessrc) + delta
    && Numbered(delta + h.linestgt - h.linessrc, hunks[1..])
  }

  /** The source from line pos on, with each hunk's range replaced by its target lines. */
  function Replaced(src: seq<string>, pos: nat, hunks: seq<Hunk>): seq<string>
    requires pos <= |src| && Matches(src, pos, hunks)
    decreases |hunks|
  {
    if hunks == [] then src[pos..]
    else
      var h := hunks[0];
      var b := Before(h.startsrc, h.linessrc);
      src[pos..b] + NewLines(h.text) + Replaced(src, b + h.linessrc, hunks[1..])
  }

  // ----- the output is the source with ranges replaced -----

  /** Only newlines have been seen as line ends. */
  predicate OnlyLf(e: Ends) { e.crlf == 0 && e.cr == 0 }

  lemma LfEnd(l: string)
    requires LfLine(l)
    ensures l != "" && Ending(l, "\n") && !Ending(l, "\r\n")
  {
    RStripEnd(l);
    var r := RStrip(l);
    assert l[|l| - 1] == '\n' && (r != "" ==> l[|l| - 2] == r[|r| - 1]);
    assert l[|l| - 1..] == "\n";
    assert |l| >= 2 ==> l[|l| - 2..][0] == l[|l| - 2];
  }

  lemma {:induction false} RStripEnd(s: string)
    ensures var r := RStrip(s);
            r <= s && (r != "" ==> r[|r| - 1] != '\r' && r[|r| - 1] != '\n')
    decreases |s|
  {
    if s != "" && (s[|s| - 1] == '\r' || s[|s| - 1] == '\n') {
      RStripEnd(s[..|s| - 1]);
    }
  }

  /** In a source of newline-ended lines, a newline-ended line is written as it is. */
  lemma FitLf(e: Ends, l: string)
    requires OnlyLf(e) && LfLine(l)
    ensures Fit(e, l) == l && OnlyLf(CountEnd(e, l))
  {
    LfEnd(l);
  }

  predicate LfSource(src: seq<string>) { forall l :: l in src ==> LfLine(l) }

  lemma TookLf(src: seq<string>, c: Cursor)
    requires LfSource(src) && OnlyLf(c.ends)
    ensures OnlyLf(Took(src, c).ends)
  {
    var l := NextLine(src, c);
    if l != "" {
      FitLf(c.ends, l);
    }
  }

  lemma {:induction false} SkipCopies(src: seq<string>, c: Cursor, start: nat)
    requires LfSource(src) && OnlyLf(c.ends) && c.read + 1 <= start <= |src| + 1
    ensures var r := SkipTo(src, c, start);
            r.out == src[c.read..start - 1] && r.at.read == start - 1 && OnlyLf(r.at.ends)
    decreases start - c.read
  {
    hide LfSource; hide OnlyLf; hide CountEnd;
    if c.read + 1 < start {
      TookLf(src, c);
      SkipCopies(src, Took(src, c), start);
      assert src[c.read..start - 1] == [src[c.read]] + src[c.read + 1..start - 1];
    }
  }

  lemma {:induction false} BodyWrites(src: seq<string>, c: Cursor, text: seq<string>)
    requires LfSource(src) && OnlyLf(c.ends) && forall l :: l in text ==> PlainLine(l)
    ensures var r := Body(src, c, text);
            r.out == NewLines(text) && r.at.read == c.read + |OldLines(text)| && OnlyLf(r.at.ends)
    decreases |text|
  {
    if text != [] {
      var l, rest := text[0], text[1..];
      assert l in text && forall x :: x in rest ==> x in text;
      TookLf(src, c);
      var r := BodyLine(src, c, l);
      if !Marked(l, '-') {
        FitLf(r.at.ends, Tail(l));
      }
      BodyWrites(src, r.at, rest);
    }
  }

  /** A hunk that removes or keeps a line, or that starts where the last one ended, is
      written in its place. */
  lemma HunkInPlace(src: seq<string>, c: Cursor, h: Hunk)
    requires LfSource(src) && OnlyLf(c.ends) && WellFormed(h)
    requires var b := Before(h.startsrc, h.linessrc); c.read <= b && b + h.linessrc <= |src|
    requires h.linessrc > 0 || c.read == h.startsrc
    ensures var b, r := Before(h.startsrc, h.linessrc), OneHunk(src, c, h);
            r.out == src[c.read..b] + NewLines(h.text) && r.at.read == b + h.linessrc && OnlyLf(r.at.ends)
  {
    hide LfSource; hide Body; hide SkipTo;
    var s := SkipTo(src, c, h.startsrc);
    if h.linessrc > 0 {
      SkipCopies(src, c, h.startsrc);
    } else {
      SkipsNone(src, c, h.startsrc);
    }
    BodyWrites(src, s.at, h.text);
  }

  /** Any other hunk only adds lines, and is written one line too early. */
  lemma HunkTooEarly(src: seq<string>, c: Cursor, h: Hunk)
    requires LfSource(src) && OnlyLf(c.ends) && WellFormed(h)
    requires h.linessrc == 0 && c.read < h.startsrc <= |src|
    ensures var r := OneHunk(src, c, h);
            r.out == src[c.read..h.startsrc - 1] + NewLines(h.text) && r.at.read == h.startsrc - 1 && OnlyLf(r.at.ends)
  {
    hide LfSource; hide Body; hide SkipTo;
    SkipCopies(src, c, h.startsrc);
    BodyWrites(src, SkipTo(src, c, h.startsrc).at, h.text);
  }

  lemma SkipsNone(src: seq<string>, c: Cursor, start: nat)
    requires start <= c.read + 1
    ensures SkipTo(src, c, start) == Run([], c)
  {}

  lemma UnreadIs(src: seq<string>, c: Cursor)
    requires c.read <= |src|
    ensures Unread(src, c) == src[c.read..]
  {}

  lemma ReplacedStep(src: seq<string>, pos: nat, hunks: seq<Hunk>)
    requires pos <= |src| && Matches(src, pos, hunks)
    ensures hunks == [] ==> Replaced(src, pos, hunks) == src[pos..]
    ensures hunks != [] ==>
      var h := hunks[0];
      var b := Before(h.startsrc, h.linessrc);
      && WellFormed(h) && pos <= b && b + h.linessrc <= |src| && Matches(src, b + h.linessrc, hunks[1..])
      && src[b..b + h.linessrc] == OldLines(h.text)
      && Replaced(src, pos, hunks) == src[pos..b] + NewLines(h.text) + Replaced(src, b + h.linessrc, hunks[1..])
  {}

  /** Hunks may as well be taken from one line further up. */
  lemma FromAbove(src: seq<string>, pos: nat, hunks: seq<Hunk>)
    requires 0 < pos <= |src| && Matches(src, pos, hunks)
    ensures Matches(src, pos - 1, hunks)
    ensures Replaced(src, pos - 1, hunks) == [src[pos - 1]] + Replaced(src, pos, hunks)
  {
    FromAboveMatches(src, pos, hunks);
    hide *;
    ReplacedStep(src, pos, hunks);
    ReplacedStep(src, pos - 1, hunks);
    if hunks == [] {
      assert src[pos - 1..] == [src[pos - 1]] + src[pos..];
    } else {
      var b := Before(hunks[0].startsrc, hunks[0].linessrc);
      assert src[pos - 1..b] == [src[pos - 1]] + src[pos..b];
      Prepend(src[pos - 1], src[pos..b], NewLines(hunks[0].text), Replaced(src, b + hunks[0].linessrc, hunks[1..]));
    }
  }

  lemma FromAboveMatches(src: seq<string>, pos: nat, hunks: seq<Hunk>)
    requires 0 < pos <= |src| && Matches(src, pos, hunks)
    ensures Matches(src, pos - 1, hunks)
  {
    hide WellFormed; hide OldLines;
  }

  lemma Prepend(x: string, s: seq<string>, n: seq<string>, v: seq<string>)
    ensures [x] + s + n + v == [x] + (s + n + v)
  {}

  predicate AllAre(ls: seq<string>, x: string) { forall l :: l in ls ==> l == x }

  /** What patch_stream needs of hunks that only add lines: each starts where reading
      stands, or adds nothing but copies of the line before it. */
  predicate AddsInPlace(src: seq<string>, read: nat, hunks: seq<Hunk>)
    requires read <= |src| && Matches(src, read, hunks)
    decreases |hunks|
  {
    hunks == [] ||
    var h, b := hunks[0], Before(hunks[0].startsrc, hunks[0].linessrc);
    if h.linessrc > 0 || read == h.startsrc then AddsInPlace(src, b + h.linessrc, hunks[1..])
    else
      FromAbove(src, b, hunks[1..]);
      AllAre(NewLines(h.text), src[b - 1]) && AddsInPlace(src, b - 1, hunks[1..])
  }

  /** Moving a line across others changes nothing exactly when they are all that line. */
  lemma Commutes(n: seq<string>, x: string, u: seq<string>, v: seq<string>)
    ensures n + u == [x] + n + v <==> AllAre(n, x) && u == [x] + v
  {
    var l, r := n + u, [x] + n + v;
    if AllAre(n, x) && u == [x] + v {
      assert forall i :: 0 <= i < |n| ==> n[i] in n;
      assert n + [x] == [x] + n;
      assert n + ([x] + v) == n + [x] + v;
    }
    if l == r {
      AllSame(n, x, u, v);
      assert u == r[|n|..] && r[|n|..] == [r[|n|]] + v;
      assert |n| > 0 ==> r[|n|] == n[|n| - 1] && n[|n| - 1] in n;
    }
  }

  lemma AllSame(n: seq<string>, x: string, u: seq<string>, v: seq<string>)
    requires n + u == [x] + n + v
    ensures AllAre(n, x)
  {
    var l, r := n + u, [x] + n + v;
    forall i | 0 <= i < |n| ensures n[i] == x {
      var k := 0;
      assert l[0] == n[0] && r[0] == x;
      while k < i
        invariant 0 <= k <= i && n[k] == x
      {
        assert l[k + 1] == n[k + 1] && r[k + 1] == n[k];
        k := k + 1;
      }
    }
  }

  /** From where reading stands, the hunks and what follows them write the source with
      their ranges replaced, exactly when hunks that only add lines add in place. */
  lemma {:induction false} HunksReplace(src: seq<string>, c: Cursor, hunks: seq<Hunk>)
    requires LfSource(src) && OnlyLf(c.ends) && c.read <= |src| && Matches(src, c.read, hunks)
    ensures var r := Hunks(src, c, hunks);
            r.out + Unread(src, r.at) == Replaced(src, c.read, hunks) <==> AddsInPlace(src, c.read, hunks)
    decreases |hunks|
  {
    hide *;
    ReplacedStep(src, c.read, hunks);
    HunksStep(src, c, hunks);
    AddsInPlaceStep(src, c.read, hunks);
    if hunks == [] {
      UnreadIs(src, c);
      assert [] + src[c.read..] == src[c.read..];
    } else {
      var h, rest, b := hunks[0], hunks[1..], Before(hunks[0].startsrc, hunks[0].linessrc);
      var s := OneHunk(src, c, h);
      var t := Hunks(src, s.at, rest);
      var u, n := t.out + Unread(src, t.at), NewLines(h.text);
      assert s.out + t.out + Unread(src, t.at) == s.out + u;
      if h.linessrc > 0 || c.read == h.startsrc {
        HunkInPlace(src, c, h);
        HunksReplace(src, s.at, rest);
        SamePrefix(src[c.read..b] + n, u, Replaced(src, b + h.linessrc, rest));
      } else {
        BeforeNone(h);
        HunkTooEarly(src, c, h);
        FromAbove(src, b, rest);
        HunksReplace(src, s.at, rest);
        EarlyOutput(src, c.read, b, n, u, Replaced(src, b, rest));
      }
    }
  }

  lemma BeforeNone(h: Hunk)
    requires h.linessrc == 0
    ensures Before(h.startsrc, h.linessrc) == h.startsrc
  {}

  lemma HunksStep(src: seq<string>, c: Cursor, hunks: seq<Hunk>)
    ensures hunks == [] ==> Hunks(src, c, hunks) == Run([], c)
    ensures hunks != [] ==>
      var r := OneHunk(src, c, hunks[0]);
      var t := Hunks(src, r.at, hunks[1..]);
      Hunks(src, c, hunks) == Run(r.out + t.out, t.at)
  {}

  lemma AddsInPlaceStep(src: seq<string>, read: nat, hunks: seq<Hunk>)
    requires read <= |src| && Matches(src, read, hunks)
    ensures hunks == [] ==> AddsInPlace(src, read, hunks)
    ensures hunks != [] ==>
      var h, b := hunks[0], Before(hunks[0].startsrc, hunks[0].linessrc);
      && (h.linessrc > 0 || read == h.startsrc ==>
            b + h.linessrc <= |src| && Matches(src, b + h.linessrc, hunks[1..])
            && AddsInPlace(src, read, hunks) == AddsInPlace(src, b + h.linessrc, hunks[1..]))
      && (!(h.linessrc > 0 || read == h.startsrc) ==>
            1 <= b <= |src| && read < b && Matches(src, b - 1, hunks[1..])
            && AddsInPlace(src, read, hunks)
            == (AllAre(NewLines(h.text), src[b - 1]) && AddsInPlace(src, b - 1, hunks[1..])))
  {
    if hunks != [] && !(hunks[0].linessrc > 0 || read == hunks[0].startsrc) {
      FromAbove(src, hunks[0].startsrc, hunks[1..]);
    }
  }

  /** What was written too early is right exactly when it does not matter. */
  lemma EarlyOutput(src: seq<string>, read: nat, b: nat, n: seq<string>, u: seq<string>, v: seq<string>)
    requires read < b <= |src|
    ensures src[read..b - 1] + n + u == src[read..b] + n + v <==> AllAre(n, src[b - 1]) && u == [src[b - 1]] + v
  {
    hide AllAre;
    var s, x := src[read..b - 1], src[b - 1];
    assert src[read..b] == s + [x];
    assert s + n + u == s + (n + u);
    assert s + [x] + n + v == s + ([x] + n + v);
    SamePrefix(s, n + u, [x] + n + v);
    Commutes(n, x, u, v);
  }

  lemma SamePrefix(p: seq<string>, a: seq<string>, b: seq<string>)
    ensures p + a == p + b <==> a == b
  {
    assert (p + a)[|p|..] == a && (p + b)[|p|..] == b;
  }

  /** patch_stream writes the source with the hunks' ranges replaced, exactly when hunks
      that only add lines add in place. */
  lemma StreamedReplaces(src: seq<string>, hunks: seq<Hunk>)
    requires LfSource(src) && Matches(src, 0, hunks)
    ensures Streamed(src, hunks) == Replaced(src, 0, hunks) <==> AddsInPlace(src, 0, hunks)
  {
    HunksReplace(src, START, hunks);
  }

  /** Hunks with at least one source line each always do. */
  lemma {:induction false} AnchoredInPlace(src: seq<string>, read: nat, hunks: seq<Hunk>)
    requires read <= |src| && Matches(src, read, hunks)
    requires forall h :: h in hunks ==> h.linessrc > 0
    ensures AddsInPlace(src, read, hunks)
    decreases |hunks|
  {
    if hunks != [] {
      assert hunks[0] in hunks && forall h :: h in hunks[1..] ==> h in hunks;
      AnchoredInPlace(src, Before(hunks[0].startsrc, hunks[0].linessrc) + hunks[0].linessrc, hunks[1..]);
    }
  }

  /** A diff without context that inserts a line after line 1 has it inserted before. */
  lemma InsertedTooEarly()
    ensures var src, h := ["a\n", "b\n"], Hunk(1, 0, 2, 1, false, "", ["+x\n"]);
            && Matches(src, 0, [h]) && Replaced(src, 0, [h]) == ["a\n", "x\n", "b\n"]
            && Streamed(src, [h]) == ["x\n", "a\n", "b\n"]
  {
    var src, h := ["a\n", "b\n"], Hunk(1, 0, 2, 1, false, "", ["+x\n"]);
    LfLetter('x');
    LfLetter('a');
    LfLetter('b');
    hide RStrip;
    assert LfSource(src) && Tail("+x\n") == "x\n";
    AddOnly(h, "+x\n");
    InsertMatches(src, h);
    hide *;
    assert [h][1..] == [];
    HunksStep(src, START, [h]);
    HunksStep(src, OneHunk(src, START, h).at, []);
    ReplacedStep(src, 0, [h]);
    ReplacedStep(src, 1, []);
    HunkTooEarly(src, START, h);
    UnreadIs(src, OneHunk(src, START, h).at);
  }

  lemma InsertMatches(src: seq<string>, h: Hunk)
    requires |src| == 2 && WellFormed(h) && h.linessrc == 0 && h.startsrc == 1 && OldLines(h.text) == []
    ensures Matches(src, 0, [h]) && Before(h.startsrc, 0) == 1
    ensures START.read == 0 && OnlyLf(START.ends)
  {
    assert [h][1..] == [];
  }

  lemma AddOnly(h: Hunk, l: string)
    requires h.text == [l] && Marked(l, '+') && LfLine(Tail(l)) && h.linessrc == 0 && h.linestgt == 1
    ensures WellFormed(h) && OldLines(h.text) == [] && NewLines(h.text) == [Tail(l)]
  {
    assert [l][1..] == [] && OldLines([]) == [] && NewLines([]) == [];
  }

  lemma LfLetter(c: char)
    requires c != '\r' && c != '\n'
    ensures LfLine([c, '\n'])
  {
    assert [c, '\n'][..1] == [c];
  }

  // ----- telling a patched file -----

  /** The body lines that the file must have: all but the removed ones. */
  function Expected(text: seq<string>): seq<string> {
    if text == [] then []
    else (if Marked(text[0], '-') then [] else [Tail(text[0])]) + Expected(text[1..])
  }

  /** The file has the lines from q on, whatever their line ends. */
  predicate HasLines(file: seq<string>, q: nat, lines: seq<string>) {
    && q + |lines| <= |file|
    && forall j :: q <= j < q + |lines| ==> RStrip(file[j]) == RStrip(lines[j - q])
  }

  /** Where a hunk is looked for, reading having come to pos. */
  function Sought(pos: nat, h: Hunk): nat { if pos + 1 < h.starttgt then h.starttgt - 1 else pos }

  /** From pos on, each hunk's lines stand at its target number, or where the last one
      ended if that is further on. */
  predicate Recognised(file: seq<string>, pos: nat, hunks: seq<Hunk>)
    decreases |hunks|
  {
    hunks == [] ||
    var q := Sought(pos, hunks[0]);
    var want := Expected(hunks[0].text);
    && (q == pos || q <= |file|) && (want == [] || HasLines(file, q, want))
    && Recognised(file, q + |want|, hunks[1..])
  }

  predicate Nonempty(file: seq<string>) { forall i :: 0 <= i < |file| ==> file[i] != "" }

  /** readline on a file of nonempty lines. */
  function ReadAt(file: seq<string>, pos: nat): string { if pos < |file| then file[pos] else "" }

  /** _match_file_hunks: the file is taken for patched exactly when the hunks' lines are
      where their target numbers say. */
  method MatchFileHunks(file: seq<string>, hunks: seq<Hunk>) returns (matched: bool)
    requires Nonempty(file)
    ensures matched == Recognised(file, 0, hunks)
  {
    var pos: nat := 0;
    assert hunks[0..] == hunks && hunks[|hunks|..] == [];
    for k := 0 to |hunks|
      invariant pos <= |file| && Recognised(file, pos, hunks[k..]) == Recognised(file, 0, hunks)
    {
      var h := hunks[k];
      assert hunks[k..][0] == h && hunks[k..][1..] == hunks[k + 1..];
      ghost var q := Sought(pos, h);
      while pos + 1 < h.starttgt
        invariant pos <= q && pos <= |file| && Sought(pos, h) == q
        decreases h.starttgt - pos
      {
        ReadAtIs(file, pos);
        if ReadAt(file, pos) == "" {
          return false;
        }
        pos := pos + 1;
      }
      var same;
      same, pos := MatchBody(file, pos, h.text);
      if !same {
        return false;
      }
    }
    matched := true;
  }

  /** The inner loop, over the lines of one hunk. */
  method MatchBody(file: seq<string>, from: nat, text: seq<string>) returns (same: bool, pos: nat)
    requires Nonempty(file) && from <= |file|
    ensures same == HasLines(file, from, Expected(text)) && pos <= |file|
    ensures same ==> pos == from + |Expected(text)|
  {
    pos := from;
    ExpectedEnds(file, text);
    hide *;
    for k := 0 to |text|
      invariant from <= pos <= |file|
      invariant HasLines(file, pos, ExpectedFrom(text, k)) == HasLines(file, from, Expected(text))
      invariant pos + |ExpectedFrom(text, k)| == from + |Expected(text)|
    {
      ExpectedStep(text, k);
      if Marked(text[k], '-') {
        continue;
      }
      HasNext(file, pos, Tail(text[k]), ExpectedFrom(text, k + 1));
      ReadAtIs(file, pos);
      if ReadAt(file, pos) == "" {
        return false, pos;
      }
      if RStrip(ReadAt(file, pos)) != RStrip(Tail(text[k])) {
        return false, pos;
      }
      pos := pos + 1;
    }
    same := true;
  }

  /** What is expected by the lines from k on. */
  function ExpectedFrom(text: seq<string>, k: nat): seq<string>
    requires k <= |text|
  {
    Expected(text[k..])
  }

  lemma ExpectedEnds(file: seq<string>, text: seq<string>)
    ensures ExpectedFrom(text, 0) == Expected(text) && |ExpectedFrom(text, |text|)| == 0
    ensures forall pos: nat :: pos <= |file| ==> HasLines(file, pos, ExpectedFrom(text, |text|))
  {
    assert text[0..] == text && text[|text|..] == [];
  }

  lemma ReadAtIs(file: seq<string>, pos: nat)
    requires Nonempty(file) && pos <= |file|
    ensures ReadAt(file, pos) == "" <==> pos == |file|
    ensures pos < |file| ==> ReadAt(file, pos) == file[pos]
  {}

  lemma ExpectedStep(text: seq<string>, k: nat)
    requires k < |text|
    ensures Marked(text[k], '-') ==> ExpectedFrom(text, k) == ExpectedFrom(text, k + 1)
    ensures !Marked(text[k], '-') ==> ExpectedFrom(text, k) == [Tail(text[k])] + ExpectedFrom(text, k + 1)
  {
    assert text[k..][0] == text[k] && text[k..][1..] == text[k + 1..];
  }

  lemma HasNext(file: seq<string>, pos: nat, l: string, rest: seq<string>)
    ensures HasLines(file, pos, [l] + rest)
       <==> pos < |file| && RStrip(file[pos]) == RStrip(l) && HasLines(file, pos + 1, rest)
  {
    hide RStrip;
    if HasLines(file, pos, [l] + rest) {
      HasFirst(file, pos, l, rest);
    }
    HasMore(file, pos, l, rest);
  }

  lemma HasFirst(file: seq<string>, pos: nat, l: string, rest: seq<string>)
    requires HasLines(file, pos, [l] + rest)
    ensures pos < |file| && RStrip(file[pos]) == RStrip(l) && HasLines(file, pos + 1, rest)
  {
    hide RStrip;
    var all := [l] + rest;
    assert all[pos - pos] == l;
    forall j | pos + 1 <= j < pos + 1 + |rest| ensures RStrip(file[j]) == RStrip(rest[j - (pos + 1)]) {
      assert all[j - pos] == rest[j - (pos + 1)];
    }
  }

  lemma HasMore(file: seq<string>, pos: nat, l: string, rest: seq<string>)
    ensures pos < |file| && RStrip(file[pos]) == RStrip(l) && HasLines(file, pos + 1, rest)
      ==> HasLines(file, pos, [l] + rest)
  {
    hide RStrip;
    var all := [l] + rest;
    if pos < |file| && RStrip(file[pos]) == RStrip(l) && HasLines(file, pos + 1, rest) {
      forall j | pos <= j < pos + |all| ensures RStrip(file[j]) == RStrip(all[j - pos]) {
        if j > pos {
          assert all[j - pos] == rest[j - (pos + 1)];
        }
      }
    }
  }

  lemma {:induction false} PlainExpected(text: seq<string>)
    requires forall l :: l in text ==> PlainLine(l)
    ensures Expected(text) == NewLines(text)
  {
    if text != [] {
      assert text[0] in text && forall l :: l in text[1..] ==> l in text;
      PlainExpected(text[1..]);
    }
  }

  lemma HasOwnLines(before: seq<string>, lines: seq<string>, after: seq<string>)
    ensures HasLines(before + lines + after, |before|, lines)
  {
    var file := before + lines + after;
    forall j | |before| <= j < |before| + |lines| ensures RStrip(file[j]) == RStrip(lines[j - |before|]) {
      assert file[j] == lines[j - |before|];
    }
  }

  /** A file to which hunks were applied is recognised, whatever stands before the part
      that is looked at. */
  lemma {:induction false} RecognisedAfter(before: seq<string>, src: seq<string>, pos: nat, from: nat, hunks: seq<Hunk>)
    requires pos <= |src| && Matches(src, pos, hunks) && Numbered(|before| - pos, hunks) && from <= |before|
    ensures Recognised(before + Replaced(src, pos, hunks), from, hunks)
    decreases |hunks|
  {
    hide *;
    ReplacedStep(src, pos, hunks);
    RecognisedStep(before + Replaced(src, pos, hunks), from, hunks);
    if hunks != [] {
      var h, rest, b := hunks[0], hunks[1..], Before(hunks[0].startsrc, hunks[0].linessrc);
      var s, n, tail := src[pos..b], NewLines(h.text), Replaced(src, b + h.linessrc, rest);
      Slices(before, s, n, tail);
      WellFormedIs(h);
      NumberedStep(|before| - pos, hunks);
      HasOwnLines(before + s, n, tail);
      SoughtIs(from, |before| + b - pos, h);
      RecognisedAfter(before + s + n, src, b + h.linessrc, Sought(from, h) + |n|, rest);
    }
  }

  lemma WellFormedIs(h: Hunk)
    requires WellFormed(h)
    ensures Expected(h.text) == NewLines(h.text) && h.linestgt == |NewLines(h.text)|
  {
    PlainExpected(h.text);
  }

  /** A hunk with target lines is looked for where its target number says. */
  lemma SoughtIs(from: nat, place: nat, h: Hunk)
    requires from <= place && Before(h.starttgt, h.linestgt) == place
    ensures Sought(from, h) <= place && (h.linestgt > 0 ==> Sought(from, h) == place)
  {}

  lemma RecognisedStep(file: seq<string>, pos: nat, hunks: seq<Hunk>)
    ensures hunks == [] ==> Recognised(file, pos, hunks)
    ensures hunks != [] ==>
      var q, want := Sought(pos, hunks[0]), Expected(hunks[0].text);
      Recognised(file, pos, hunks)
        == ((q == pos || q <= |file|) && (want == [] || HasLines(file, q, want))
            && Recognised(file, q + |want|, hunks[1..]))
  {}

  // ----- undoing -----

  function SwapLine(l: string): string {
    if Marked(l, '-') then "+" + l[1..] else if Marked(l, '+') then "-" + l[1..] else l
  }

  function SwapText(text: seq<string>): seq<string> {
    if text == [] then [] else [SwapLine(text[0])] + SwapText(text[1..])
  }

  /** The hunk that leads back. */
  function Swap(h: Hunk): Hunk {
    Hunk(h.starttgt, h.linestgt, h.startsrc, h.linessrc, h.invalid, h.desc, SwapText(h.text))
  }

  function SwapAll(hunks: seq<Hunk>): seq<Hunk> {
    if hunks == [] then [] else [Swap(hunks[0])] + SwapAll(hunks[1..])
  }

  lemma {:induction false} SwapTextLines(text: seq<string>)
    requires forall l :: l in text ==> PlainLine(l)
    ensures OldLines(SwapText(text)) == NewLines(text) && NewLines(SwapText(text)) == OldLines(text)
    ensures forall l :: l in SwapText(text) ==> PlainLine(l)
  {
    if text != [] {
      var l, rest := text[0], text[1..];
      assert l in text && forall x :: x in rest ==> x in text;
      SwapTextLines(rest);
      SwapLineIs(l);
      hide PlainLine; hide SwapLine; hide Marked; hide Tail;
      assert SwapText(text)[1..] == SwapText(rest);
    }
  }

  lemma SwapLineIs(l: string)
    requires PlainLine(l)
    ensures var m := SwapLine(l);
            && PlainLine(m) && Tail(m) == Tail(l)
            && Marked(m, '-') == Marked(l, '+') && Marked(m, '+') == Marked(l, '-') && Marked(m, ' ') == Marked(l, ' ')
  {}

  lemma SwapIs(hunks: seq<Hunk>)
    requires hunks != []
    ensures SwapAll(hunks) != [] && SwapAll(hunks)[0] == Swap(hunks[0]) && SwapAll(hunks)[1..] == SwapAll(hunks[1..])
  {}

  /** The swapped hunks match what the hunks made, and lead back to the source. */
  lemma {:induction false} SwapUndoes(before: seq<string>, src: seq<string>, pos: nat, hunks: seq<Hunk>)
    requires pos <= |src| && Matches(src, pos, hunks) && Numbered(|before| - pos, hunks)
    ensures var made := before + Replaced(src, pos, hunks);
            Matches(made, |before|, SwapAll(hunks)) && Replaced(made, |before|, SwapAll(hunks)) == src[pos..]
    decreases |hunks|
  {
    hide *;
    var made := before + Replaced(src, pos, hunks);
    ReplacedStep(src, pos, hunks);
    if hunks == [] {
      SwapNone(made, |before|);
    } else {
      SwapIs(hunks);
      var h, rest := hunks[0], hunks[1..];
      var b := Before(h.startsrc, h.linessrc);
      SwapHeader(h);
      NumberedStep(|before| - pos, hunks);
      var s, n, tail := src[pos..b], NewLines(h.text), Replaced(src, b + h.linessrc, rest);
      SplitRange(src, pos, b, b + h.linessrc);
      Slices(before, s, n, tail);
      SwapUndoes(before + s + n, src, b + h.linessrc, rest);
      SwapStep(made, |before|, SwapAll(hunks), |before + s|, s, src[b..b + h.linessrc], src[b + h.linessrc..]);
    }
  }

  lemma SwapNone(made: seq<string>, pos: nat)
    requires pos <= |made|
    ensures Matches(made, pos, SwapAll([])) && Replaced(made, pos, SwapAll([])) == made[pos..]
  {}

  lemma NumberedStep(delta: int, hunks: seq<Hunk>)
    requires Numbered(delta, hunks) && hunks != []
    ensures Before(hunks[0].starttgt, hunks[0].linestgt) == Before(hunks[0].startsrc, hunks[0].linessrc) + delta
    ensures Numbered(delta + hunks[0].linestgt - hunks[0].linessrc, hunks[1..])
  {}

  lemma SplitRange(src: seq<string>, pos: nat, b: nat, e: nat)
    requires pos <= b <= e <= |src|
    ensures src[pos..] == src[pos..b] + src[b..e] + src[e..] && |src[pos..b]| == b - pos
  {}

  lemma SwapHeader(h: Hunk)
    requires WellFormed(h)
    ensures WellFormed(Swap(h)) && Before(Swap(h).startsrc, Swap(h).linessrc) == Before(h.starttgt, h.linestgt)
    ensures Swap(h).linessrc == h.linestgt == |NewLines(h.text)| && h.linessrc == |OldLines(h.text)|
    ensures OldLines(Swap(h).text) == NewLines(h.text) && NewLines(Swap(h).text) == OldLines(h.text)
  {
    SwapTextLines(h.text);
  }

  lemma Slices(p: seq<string>, s: seq<string>, n: seq<string>, t: seq<string>)
    ensures p + (s + n + t) == p + s + n + t
    ensures (p + s + n + t)[|p|..|p + s|] == s
    ensures (p + s + n + t)[|p + s|..|p + s| + |n|] == n
  {}

  lemma SwapStep(made: seq<string>, pos: nat, hunks: seq<Hunk>, b: nat, lead: seq<string>, n: seq<string>, v: seq<string>)
    requires hunks != [] && Before(hunks[0].startsrc, hunks[0].linessrc) == b && WellFormed(hunks[0])
    requires pos <= b && b + hunks[0].linessrc <= |made| && made[b..b + hunks[0].linessrc] == OldLines(hunks[0].text)
    requires Matches(made, b + hunks[0].linessrc, hunks[1..])
    requires made[pos..b] == lead && NewLines(hunks[0].text) == n && Replaced(made, b + hunks[0].linessrc, hunks[1..]) == v
    ensures Matches(made, pos, hunks) && Replaced(made, pos, hunks) == lead + n + v
  {}

  lemma {:induction false} ReplacedLf(src: seq<string>, pos: nat, hunks: seq<Hunk>)
    requires pos <= |src| && Matches(src, pos, hunks) && LfSource(src)
    ensures LfSource(Replaced(src, pos, hunks))
    decreases |hunks|
  {
    hide LfLine;
    if hunks != [] {
      ReplacedStep(src, pos, hunks);
      var h, b := hunks[0], Before(hunks[0].startsrc, hunks[0].linessrc);
      NewLinesLf(h.text);
      ReplacedLf(src, b + h.linessrc, hunks[1..]);
    }
  }

  lemma {:induction false} NewLinesLf(text: seq<string>)
    requires forall l :: l in text ==> PlainLine(l)
    ensures LfSource(NewLines(text))
  {
    if text != [] {
      assert text[0] in text && forall l :: l in text[1..] ==> l in text;
      NewLinesLf(text[1..]);
    }
  }

  /** Patching and what it is good for: for ordered hunks of at least one source line and
      one target line, matching a newline-ended source, with consistent numbers, the
      output is the source with the ranges replaced, is recognised as patched, and is
      turned back into the source by the swapped hunks. */
  lemma PatchLaws(src: seq<string>, hunks: seq<Hunk>)
    requires LfSource(src) && Matches(src, 0, hunks) && Numbered(0, hunks)
    requires forall h :: h in hunks ==> h.linessrc > 0 && h.linestgt > 0
    ensures var made := Streamed(src, hunks);
            && made == Replaced(src, 0, hunks)
            && Recognised(made, 0, hunks)
            && Streamed(made, SwapAll(hunks)) == src
  {
    AnchoredInPlace(src, 0, hunks);
    StreamedReplaces(src, hunks);
    var made := Replaced(src, 0, hunks);
    assert [] + made == made && src[0..] == src;
    RecognisedAfter([], src, 0, 0, hunks);
    SwapUndoes([], src, 0, hunks);
    ReplacedLf(src, 0, hunks);
    SwapAnchored(hunks);
    AnchoredInPlace(made, 0, SwapAll(hunks));
    StreamedReplaces(made, SwapAll(hunks));
  }

  lemma {:induction false} SwapAnchored(hunks: seq<Hunk>)
    requires forall h :: h in hunks ==> h.linestgt > 0
    ensures forall h :: h in SwapAll(hunks) ==> h.linessrc > 0
  {
    if hunks != [] {
      assert hunks[0] in hunks && forall h :: h in hunks[1..] ==> h in hunks;
      SwapAnchored(hunks[1..]);
    }
  }
}
