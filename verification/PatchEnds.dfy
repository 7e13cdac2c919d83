/** The line ends of a patched file are those of the file, whatever those of the patch. */
module PatchEnds {
  import opened PatchTypes
  import opened PatchApply

  predicate IsEnd(k: string) { k == "\n" || k == "\r\n" || k == "\r" }

  /** The line has exactly this end. */
  predicate Ended(l: string, k: string) { l == RStrip(l) + k }

  /** Only this end has been seen, and it has. */
  predicate Only(e: Ends, k: string) {
    && (e.lf > 0 <==> k == "\n") && (e.crlf > 0 <==> k == "\r\n") && (e.cr > 0 <==> k == "\r")
  }

  lemma RStripSettled(s: string)
    ensures RStrip(RStrip(s)) == RStrip(s)
  {
    RStripEnd(s);
  }

  lemma {:induction false} RStripDrops(s: string, k: string)
    requires IsEnd(k) && RStrip(s) == s
    ensures RStrip(s + k) == s
  {
    var t := s + k;
    assert t[..|t| - 1] == s + k[..|k| - 1];
    if |k| == 1 {
      assert k[..0] == "" && s + "" == s;
    } else {
      var u := s + "\r";
      assert k[..1] == "\r" && t[..|t| - 1] == u && u[..|u| - 1] == s;
      assert RStrip(u) == RStrip(u[..|u| - 1]);
    }
  }

  /** How the counters see a line. */
  lemma EndCounted(e: Ends, l: string, k: string)
    requires IsEnd(k) && Ended(l, k)
    ensures CountEnd(e, l) == if k == "\n" then e.(lf := e.lf + 1)
                              else if k == "\r\n" then e.(crlf := e.crlf + 1)
                              else e.(cr := e.cr + 1)
  {
    RStripEnd(l);
    hide RStrip; hide Ending;
    EndOf(RStrip(l), k);
  }

  lemma EndOf(r: string, k: string)
    requires IsEnd(k) && (r != "" ==> r[|r| - 1] != '\r' && r[|r| - 1] != '\n')
    ensures Ending(r + k, "\r\n") <==> k == "\r\n"
    ensures k != "\r\n" ==> (Ending(r + k, "\n") <==> k == "\n")
    ensures k == "\r" ==> Ending(r + k, "\r")
  {
    hide Ending;
    var l := r + k;
    EndingOne(l, '\n');
    EndingOne(l, '\r');
    EndingTwo(l);
    assert l[|l| - 1] == k[|k| - 1];
    if |k| == 1 {
      assert r != "" ==> l[|l| - 2] == r[|r| - 1];
    } else {
      assert l[|l| - 2] == k[0];
    }
  }

  lemma EndingOne(l: string, c: char)
    ensures Ending(l, [c]) <==> l != "" && l[|l| - 1] == c
  {
    if l != "" {
      assert l[|l| - 1..] == [l[|l| - 1]];
    }
  }

  lemma EndingTwo(l: string)
    ensures Ending(l, "\r\n") <==> |l| >= 2 && l[|l| - 2] == '\r' && l[|l| - 1] == '\n'
  {
    if |l| >= 2 {
      assert l[|l| - 2..] == [l[|l| - 2], l[|l| - 1]];
    }
  }

  /** While one kind of end was seen a line is written with it; otherwise as it stands. */
  lemma FitExactly(e: Ends, l: string)
    ensures forall k :: IsEnd(k) && Only(e, k) ==> Fit(e, l) == RStrip(l) + k && Ended(Fit(e, l), k)
    ensures (forall k :: IsEnd(k) ==> !Only(e, k)) ==> Fit(e, l) == l
  {
    RStripSettled(l);
    RStripDrops(RStrip(l), "\n");
    RStripDrops(RStrip(l), "\r\n");
    RStripDrops(RStrip(l), "\r");
    assert IsEnd("\n") && IsEnd("\r\n") && IsEnd("\r");
    hide RStrip;
  }

  ghost predicate AllEnded(lines: seq<string>, k: string) { forall l :: l in lines ==> l == "" || Ended(l, k) }

  predicate SourceEnded(src: seq<string>, k: string) { forall l :: l in src ==> Ended(l, k) }

  lemma TookEnded(src: seq<string>, c: Cursor, k: string)
    requires IsEnd(k) && SourceEnded(src, k)
    ensures NextLine(src, c) == "" || Ended(NextLine(src, c), k)
    ensures Only(c.ends, k) ==> Only(Took(src, c).ends, k)
    ensures c.read < |src| && c.ends == Ends(0, 0, 0) ==> Only(Took(src, c).ends, k)
  {
    hide RStrip; hide CountEnd;
    var l := NextLine(src, c);
    if c.read < |src| {
      EndCounted(c.ends, l, k);
    } else {
      NoEnd(c.ends);
    }
  }

  lemma NoEnd(e: Ends)
    ensures CountEnd(e, "") == e
  {
  }

  lemma {:induction false} SkipEnded(src: seq<string>, c: Cursor, start: nat, k: string)
    requires IsEnd(k) && SourceEnded(src, k)
    requires Only(c.ends, k) || (c == START && src != [] && start > 1)
    ensures var r := SkipTo(src, c, start); AllEnded(r.out, k) && Only(r.at.ends, k)
    decreases start - c.read
  {
    hide Ended; hide SourceEnded; hide Only; hide CountEnd; hide NextLine;
    if c.read + 1 < start {
      TookEnded(src, c, k);
      SkipEnded(src, Took(src, c), start, k);
    }
  }

  lemma BodyLineEnded(src: seq<string>, c: Cursor, l: string, k: string)
    requires IsEnd(k) && SourceEnded(src, k) && Only(c.ends, k)
    ensures var r := BodyLine(src, c, l); AllEnded(r.out, k) && Only(r.at.ends, k)
  {
    hide Ended; hide SourceEnded; hide Only; hide Took; hide NextLine; hide Fit;
    TookEnded(src, c, k);
    FitExactly(c.ends, PatchApply.Tail(l));
    FitExactly(Took(src, c).ends, PatchApply.Tail(l));
  }

  lemma {:induction false} BodyEnded(src: seq<string>, c: Cursor, text: seq<string>, k: string)
    requires IsEnd(k) && SourceEnded(src, k) && Only(c.ends, k)
    ensures var r := Body(src, c, text); AllEnded(r.out, k) && Only(r.at.ends, k)
    decreases |text|
  {
    hide Ended; hide SourceEnded; hide Only; hide BodyLine;
    if text != [] {
      BodyLineEnded(src, c, text[0], k);
      BodyEnded(src, BodyLine(src, c, text[0]).at, text[1..], k);
    }
  }

  lemma {:induction false} HunksEnded(src: seq<string>, c: Cursor, hunks: seq<Hunk>, k: string)
    requires IsEnd(k) && SourceEnded(src, k)
    requires Only(c.ends, k) || (c == START && src != [] && hunks != [] && hunks[0].startsrc > 1)
    ensures AllEnded(Hunks(src, c, hunks).out, k)
    decreases |hunks|
  {
    hide Ended; hide SourceEnded; hide Only; hide SkipTo; hide Body;
    if hunks != [] {
      var h := hunks[0];
      SkipEnded(src, c, h.startsrc, k);
      var r := SkipTo(src, c, h.startsrc);
      BodyEnded(src, r.at, h.text, k);
      HunksEnded(src, OneHunk(src, c, h).at, hunks[1..], k);
    }
  }

  /** A file with one kind of line end keeps it through any patch that starts after its
      first line: every line of the output has that end, whatever ends the lines of the
      patch have. */
  lemma EndsFollowSource(src: seq<string>, hunks: seq<Hunk>, k: string)
    requires IsEnd(k) && SourceEnded(src, k) && src != [] && (hunks != [] ==> hunks[0].startsrc > 1)
    ensures AllEnded(Streamed(src, hunks), k)
  {
    if hunks != [] {
      HunksEnded(src, START, hunks, k);
    }
    hide Ended; hide Hunks;
  }

  // ----- what a body consumes and writes -----

  function Counted(text: seq<string>, p: string -> bool): nat {
    if text == [] then 0 else (if p(text[0]) then 1 else 0) + Counted(text[1..], p)
  }

  /** Every line of a body but added ones takes a line from the source, the remark about a
      missing newline included; every line but removed ones and remarks is written. */
  lemma {:induction false} BodyCounts(src: seq<string>, c: Cursor, text: seq<string>)
    ensures var r := Body(src, c, text);
            && r.at.read == c.read + Counted(text, l => !Marked(l, '+'))
            && |r.out| == Counted(text, l => !Marked(l, '-') && !Marked(l, '\\'))
    decreases |text|
  {
    hide Fit; hide CountEnd; hide NextLine;
    if text != [] {
      BodyCounts(src, BodyLine(src, c, text[0]).at, text[1..]);
    }
  }
}
