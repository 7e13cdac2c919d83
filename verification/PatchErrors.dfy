/** What the parser makes of damaged patches: where it resumes, and what it reports. */
module PatchErrors {
  import opened Wrappers
  import opened PatchTypes
  import opened PatchParse
  import opened PatchForms

  // ----- errors are counted and not looked at -----

  function More(s: State, n: nat): State { s.(errors := s.errors + n) }

  lemma StepCounts(s: State, line: string, n: nat)
    ensures Step(More(s, n), line) == More(Step(s, line), n)
  {
    hide ParseHead; hide Body; hide Late; hide Starts;
    var a := Scan(s.(inHeader := false, f := Decided(s.f, line)), line);
    BodyCountsErrors(a.s, line, n);
    var b := Body(a.s, line);
    LateCountsErrors(b.s, b.line, n);
  }

  lemma LateCountsErrors(s: State, line: string, n: nat)
    ensures Late(More(s, n), line) == More(Late(s, line), n)
  {
    hide Names; hide HunkLine; hide Skipped;
    var c := s.(f := Skipped(s.f, line));
    NamesCountErrors(c, line, n);
    HunkLineCountsErrors(Names(c, line).s, line, n);
  }

  lemma NamesCountErrors(s: State, line: string, n: nat)
    ensures Names(More(s, n), line) == Names(s, line).(s := More(Names(s, line).s, n))
  {
    hide FileName; hide Starts;
  }

  lemma HunkLineCountsErrors(s: State, line: string, n: nat)
    ensures HunkLine(More(s, n), line) == More(HunkLine(s, line), n)
  {
    hide ParseHead; hide NewHunk;
  }

  lemma BodyCountsErrors(s: State, line: string, n: nat)
    ensures Body(More(s, n), line) == Body(s, line).(s := More(Body(s, line).s, n))
  {
    hide Blank; hide Take; hide Check;
    if s.f.hunkbody {
      if Blank(line) {
        LineCountsErrors(s.(warnings := s.warnings + 1), " " + line, n);
      } else {
        LineCountsErrors(s, line, n);
      }
    }
  }

  lemma LineCountsErrors(s: State, l: string, n: nat)
    ensures var c := Check(Take(s, l), l); Check(Take(More(s, n), l), l) == c.(s := More(c.s, n))
  {
    TakeCountsErrors(s, l, n);
    CheckCountsErrors(Take(s, l), l, n);
    hide Take; hide Check;
  }

  lemma TakeCountsErrors(s: State, l: string, n: nat)
    ensures Take(More(s, n), l) == More(Take(s, l), n)
  {
    hide BodyMark; hide CountEnd;
  }

  lemma CheckCountsErrors(s: State, l: string, n: nat)
    ensures Check(More(s, n), l) == Check(s, l).(s := More(Check(s, l).s, n))
  {
    hide Mixed;
  }

  lemma {:induction false} RunCounts(s: State, lines: seq<string>, n: nat)
    ensures Run(More(s, n), lines) == More(Run(s, lines), n)
    decreases |lines|
  {
    hide Step;
    if lines != [] {
      StepCounts(s, lines[0], n);
      RunCounts(Step(s, lines[0]), lines[1..], n);
    }
  }

  // ----- a hunk cut short -----

  /** A body that has not reached the counts of its header. */
  ghost predicate Short(h: Hunk) {
    && Marked(h.text) && Unfinished(h, h.text) && !Full(h, h.text) && !h.invalid
    && SrcLines(h.text) <= h.linessrc && TgtLines(h.text) <= h.linestgt
  }

  /** A reader inside a hunk, in a patch without errors so far. */
  ghost predicate Inside(s: State, h: Hunk, k: nat, items: seq<Patch>, p: Patch) {
    Midway(s, h, k) && Like(s.kept, items, p) && s.errors == 0 && s.header == []
  }

  lemma ShortStep(s: State, h: Hunk, k: nat, items: seq<Patch>, p: Patch)
    requires Short(h) && k < |h.text| && Inside(s, h, k, items, p)
    ensures Inside(Step(s, h.text[k]), h, k + 1, items, p)
  {
    var l := h.text[k];
    assert l in h.text && BodyMark(l);
    MarkNotBlank(l);
    ShortTake(s, h, k, items, p);
    ShortCheck(Take(s, l), h, k + 1, l, items, p);
    hide Blank; hide ParseHead; hide Take; hide Check; hide Like; hide Midway; hide Short;
    assert Decided(s.f, l) == s.f;
    NotScanning(s, l);
  }

  lemma ShortTake(s: State, h: Hunk, k: nat, items: seq<Patch>, p: Patch)
    requires Short(h) && k < |h.text| && Inside(s, h, k, items, p)
    ensures Inside(Take(s, h.text[k]), h, k + 1, items, p)
  {
    assert h.text[k] in h.text;
    assert h.text[..k + 1] == h.text[..k] + [h.text[k]];
    CountsNext(h.text[..k], h.text[k]);
    hide Unfinished; hide SrcLines; hide TgtLines; hide CountEnd;
  }

  lemma ShortCheck(s: State, h: Hunk, k: nat, l: string, items: seq<Patch>, p: Patch)
    requires Short(h) && 0 < k <= |h.text| && Inside(s, h, k, items, p)
    ensures Check(s, l) == Next(s, l, false)
  {
    CountsGrow(h.text, k);
    assert !Full(h, h.text[..k]);
    hide SrcLines; hide TgtLines; hide Like; hide Mixed;
  }

  lemma ShortLine(s: State, h: Hunk, k: nat, l: string, items: seq<Patch>, p: Patch)
    requires Short(h) && k < |h.text| && h.text[k] == Expand(l) && Inside(s, h, k, items, p)
    ensures Inside(Step(s, l), h, k + 1, items, p)
  {
    hide Short;
    if Blank(l) {
      BlankRead(s, l);
      hide Step; hide Blank;
      ShortStep(s.(warnings := s.warnings + 1), h, k, items, p);
    } else {
      ShortStep(s, h, k, items, p);
    }
  }

  lemma {:induction false} ShortLines(s: State, h: Hunk, k: nat, lines: seq<string>, items: seq<Patch>, p: Patch)
    requires Short(h) && k <= |h.text| && h.text == ExpandAll(lines) && Inside(s, h, k, items, p)
    ensures Inside(Run(s, lines[k..]), h, |h.text|, items, p)
    decreases |h.text| - k
  {
    hide Short; hide Inside; hide Step;
    if k < |h.text| {
      ShortLine(s, h, k, lines[k], items, p);
      RunNext(s, lines, k);
      ShortLines(Step(s, lines[k]), h, k + 1, lines, items, p);
    } else {
      assert lines[k..] == [];
    }
  }

  // ----- the line that breaks it -----

  /** A line that cannot belong to the body, or is one too many. */
  predicate Breaks(h: Hunk, l: string) {
    !Blank(l) && (BodyMark(l) ==> SrcLines(h.text + [l]) > h.linessrc || TgtLines(h.text + [l]) > h.linestgt)
  }

  /** The hunk as it is kept. */
  function Refused(h: Hunk, l: string): Hunk {
    h.(invalid := true, text := if BodyMark(l) then h.text + [l] else h.text)
  }

  /** Past a hunk that was refused, with its error set aside. */
  ghost predicate Skipping(s: State, items: seq<Patch>, p: Patch) {
    && s.f == NOWHERE.(hunkskip := true) && !s.inHeader && s.errors == 1 && s.header == [] && Like(s.kept, items, p)
  }

  /** What the block for the body makes of such a line. */
  lemma Broken(s: State, h: Hunk, l: string, items: seq<Patch>, p: Patch)
    requires Short(h) && Inside(s, h, |h.text|, items, p) && Breaks(h, l)
    ensures var b := Body(s, l); Skipping(b.s, items, p.(hunks := p.hunks + [Refused(h, l)])) && b.line == l && !b.done
  {
    assert h.text[..|h.text|] == h.text;
    assert h.(text := h.text) == h;
    if BodyMark(l) {
      CountsNext(h.text, l);
    }
    hide SrcLines; hide TgtLines; hide Blank; hide ParseHead; hide Mixed; hide CountEnd; hide Unfinished; hide BodyMark;
  }

  /** If it is no head line and names no file it is passed over. */
  lemma BrokenLine(s: State, h: Hunk, l: string, items: seq<Patch>, p: Patch)
    requires Short(h) && Inside(s, h, |h.text|, items, p) && Breaks(h, l)
    requires ParseHead(l).None? && !Starts(l, "--- ")
    ensures Skipping(Step(s, l), items, p.(hunks := p.hunks + [Refused(h, l)]))
  {
    Broken(s, h, l, items, p);
    hide Body; hide ParseHead; hide Short; hide Breaks; hide Refused; hide Starts; hide Like;
    assert Decided(s.f, l) == s.f;
  }

  lemma SkippedLine(s: State, l: string, items: seq<Patch>, p: Patch)
    requires Skipping(s, items, p) && ParseHead(l).None? && !Starts(l, "--- ")
    ensures Skipping(Step(s, l), items, p)
  {
    hide ParseHead; hide Starts; hide Like;
  }

  /** Lines that are passed over after a refused hunk. */
  predicate Junk(lines: seq<string>) { forall l :: l in lines ==> ParseHead(l).None? && !Starts(l, "--- ") }

  lemma {:induction false} SkippedLines(s: State, lines: seq<string>, items: seq<Patch>, p: Patch)
    requires Skipping(s, items, p) && Junk(lines)
    ensures Skipping(Run(s, lines), items, p)
    decreases |lines|
  {
    hide Skipping; hide Step; hide ParseHead; hide Starts;
    if lines != [] {
      SkippedLine(s, lines[0], items, p);
      SkippedLines(Step(s, lines[0]), lines[1..], items, p);
    }
  }

  // ----- where it resumes -----

  /** At the first line of a hunk, having counted one error. */
  ghost predicate Resumed(s: State, h: Hunk, items: seq<Patch>, p: Patch) {
    s.errors == 1 && Inside(s.(errors := 0), h, 0, items, p)
  }

  lemma HeadAfterSkip(s: State, g: HunkForm, items: seq<Patch>, p: Patch)
    requires Skipping(s, items, p) && TailOk(g.tail)
    ensures Resumed(Step(s, HunkLines(g)[0]), HunkOf(g), items, p)
  {
    LateHead(s, g, items, p);
    NotScanning(s, HunkLines(g)[0]);
    hide Late; hide Step; hide Resumed; hide Like;
  }

  /** A head line right after a hunk cut short both breaks it and begins the next one. */
  lemma HeadBreaks(s: State, h: Hunk, g: HunkForm, items: seq<Patch>, p: Patch)
    requires Short(h) && Inside(s, h, |h.text|, items, p) && TailOk(g.tail)
    ensures Resumed(Step(s, HunkLines(g)[0]), HunkOf(g), items, p.(hunks := p.hunks + [h.(invalid := true)]))
  {
    var l, q := HunkLines(g)[0], p.(hunks := p.hunks + [h.(invalid := true)]);
    HeadIsBreak(h, g);
    Broken(s, h, l, items, p);
    hide Breaks; hide Refused; hide HunkLines; hide Body; hide Skipping; hide HunkOf; hide Resumed; hide Step; hide TailOk;
    LateHead(Body(s, l).s, g, items, q);
    NotScanning(s, l);
  }

  lemma HeadIsBreak(h: Hunk, g: HunkForm)
    requires TailOk(g.tail) && !h.invalid
    ensures var l := HunkLines(g)[0]; Breaks(h, l) && Refused(h, l) == h.(invalid := true)
  {
    HeadTextRead(g.a, g.m, g.srcCount, g.b, g.n, g.tgtCount, g.tail);
    hide HeadText; hide TailOk; hide ParseHead; hide SrcLines; hide TgtLines; hide Blank; hide BodyMark;
    NoMark(HunkLines(g)[0]);
  }

  lemma NoMark(l: string)
    requires l != "" && l[0] == '@'
    ensures !Blank(l) && !BodyMark(l)
  {
    assert l[0] in l;
  }

  lemma NotScanning(s: State, l: string)
    requires s.f == NOWHERE.(hunkbody := true) || s.f == NOWHERE.(hunkskip := true)
    requires !s.inHeader && !Body(s, l).done && Body(s, l).line == l
    ensures Step(s, l) == Late(Body(s, l).s, l)
  {
    hide Body; hide Late; hide ParseHead; hide Starts;
  }

  lemma LateHead(s: State, g: HunkForm, items: seq<Patch>, p: Patch)
    requires Skipping(s, items, p) && TailOk(g.tail)
    ensures Resumed(Late(s, HunkLines(g)[0]), HunkOf(g), items, p)
  {
    var l := HunkLines(g)[0];
    HeadTextRead(g.a, g.m, g.srcCount, g.b, g.n, g.tgtCount, g.tail);
    hide ParseHead; hide NewHunk; hide HeadText; hide TailOk; hide Desc; hide Like; hide HunkOf;
    var s1 := s.(f := NOWHERE.(hunkhead := true));
    assert Late(s, l) == HunkLine(s1, l);
    hide Late;
    Starting(s1, g);
    assert Midway(HunkLine(s1, l), HunkOf(g), 0);
  }

  lemma Starting(s: State, g: HunkForm)
    requires s.f == NOWHERE.(hunkhead := true) && TailOk(g.tail) && !s.inHeader
    ensures var t := HunkLine(s, HunkLines(g)[0]);
            t == s.(f := t.f, read := t.read) && Midway(t, HunkOf(g), 0)
  {
    HeadTextRead(g.a, g.m, g.srcCount, g.b, g.n, g.tgtCount, g.tail);
    hide ParseHead; hide NewHunk; hide HeadText; hide TailOk; hide Desc;
    assert HunkOf(g).text[..0] == [];
  }

  // ----- a damaged hunk in a patch -----

  /** A hunk that ends too early, and what stands before the next one: nothing, or lines of
      which the first breaks it. */
  datatype Damage = Damage(f: HunkForm, junk: seq<string>)

  ghost predicate DamageOk(d: Damage) {
    && TailOk(d.f.tail) && Short(HunkOf(d.f)) && Junk(d.junk)
    && (d.junk != [] ==> Breaks(HunkOf(d.f), d.junk[0]))
  }

  /** The hunk as it is kept. */
  function Damaged(d: Damage): Hunk {
    if d.junk == [] then HunkOf(d.f).(invalid := true) else Refused(HunkOf(d.f), d.junk[0])
  }

  lemma ShortRead(s: State, f: HunkForm, items: seq<Patch>, p: Patch)
    requires TailOk(f.tail) && Short(HunkOf(f)) && (Opened(s, items, p) || Between(s, items, p))
    ensures Inside(Run(s, HunkLines(f)), HunkOf(f), |HunkOf(f).text|, items, p)
  {
    var head := HunkLines(f)[0];
    HeadTaken(s, f);
    RunCat(s, [head], f.lines);
    RunOne(s, head);
    assert HunkLines(f) == [head] + f.lines && f.lines[0..] == f.lines;
    hide Midway; hide Step; hide Like; hide HeadText; hide TailOk; hide ExpandAll; hide Short;
    ShortLines(Step(s, head), HunkOf(f), 0, f.lines, items, p);
  }

  /** The next hunk is found again at its head line. */
  lemma DamageRead(s: State, d: Damage, g: HunkForm, items: seq<Patch>, p: Patch)
    requires DamageOk(d) && TailOk(g.tail) && (Opened(s, items, p) || Between(s, items, p))
    ensures Resumed(Run(s, HunkLines(d.f) + d.junk + [HunkLines(g)[0]]), HunkOf(g), items,
                    p.(hunks := p.hunks + [Damaged(d)]))
  {
    var h, head, q := HunkOf(d.f), HunkLines(g)[0], p.(hunks := p.hunks + [Damaged(d)]);
    ShortRead(s, d.f, items, p);
    var t := Run(s, HunkLines(d.f));
    RunCat(s, HunkLines(d.f) + d.junk, [head]);
    RunCat(s, HunkLines(d.f), d.junk);
    var u := Run(t, d.junk);
    RunOne(u, head);
    hide Short; hide Inside; hide TailOk; hide HunkOf; hide HunkLines; hide Breaks; hide Refused; hide Resumed; hide Step;
    hide Skipping; hide Opened; hide Between; hide Starts; hide ParseHead;
    if d.junk == [] {
      assert u == t;
      HeadBreaks(t, h, g, items, p);
    } else {
      var l := d.junk[0];
      assert l in d.junk && forall x :: x in d.junk[1..] ==> x in d.junk;
      BrokenLine(t, h, l, items, p);
      SkippedLines(Step(t, l), d.junk[1..], items, q);
      HeadAfterSkip(u, g, items, q);
    }
  }

  /** A hunk that is read after an error is read as without one. */
  lemma ResumedHunk(s: State, g: HunkForm, items: seq<Patch>, p: Patch)
    requires HunkOk(g) && Resumed(s, HunkOf(g), items, p)
    ensures var t := Run(s, g.lines);
            t.errors == 1 && Between(t.(errors := 0), items, p.(hunks := p.hunks + [HunkOf(g)]))
  {
    NotEmpty(HunkOf(g));
    assert g.lines[0..] == g.lines && HunkOf(g).text == ExpandAll(g.lines);
    var s0 := s.(errors := 0);
    assert More(s0, 1) == s;
    hide Complete; hide Midway; hide Like; hide TailOk; hide HunkOf; hide Run; hide Between;
    LinesRead(s0, HunkOf(g), 0, g.lines, items, p);
    RunCounts(s0, g.lines, 1);
    NoErrors(Run(s0, g.lines), items, p.(hunks := p.hunks + [HunkOf(g)]));
  }

  lemma DamageThenHunk(s: State, d: Damage, g: HunkForm, items: seq<Patch>, p: Patch)
    requires DamageOk(d) && HunkOk(g) && (Opened(s, items, p) || Between(s, items, p))
    ensures var t := Run(s, HunkLines(d.f) + d.junk + HunkLines(g));
            && t.errors == 1
            && Between(t.(errors := 0), items, p.(hunks := p.hunks + [Damaged(d), HunkOf(g)]))
  {
    var q := p.(hunks := p.hunks + [Damaged(d)]);
    var lines := HunkLines(d.f) + d.junk + [HunkLines(g)[0]];
    HeadApart(HunkLines(d.f) + d.junk, g);
    Two(p.hunks, Damaged(d), HunkOf(g));
    hide DamageOk; hide Damaged; hide Opened; hide Between; hide Run; hide HunkOf; hide HunkLines; hide Resumed;
    hide Complete; hide TailOk;
    DamageRead(s, d, g, items, p);
    RunCat(s, lines, g.lines);
    ResumedHunk(Run(s, lines), g, items, q);
  }

  lemma HeadApart(a: seq<string>, g: HunkForm)
    ensures a + HunkLines(g) == (a + [HunkLines(g)[0]]) + g.lines
  {
    hide HeadText;
  }

  lemma Two(a: seq<Hunk>, x: Hunk, y: Hunk)
    ensures a + [x] + [y] == a + [x, y]
  {
  }

  lemma NoErrors(s: State, items: seq<Patch>, p: Patch)
    requires Between(s, items, p)
    ensures s.errors == 0
  {
  }

  /** A file of which one hunk ends too early, among hunks that do not. */
  datatype DamagedForm = DamagedForm(header: seq<string>, source: NameForm, target: NameForm,
                                     before: seq<HunkForm>, damage: Damage, next: HunkForm, after: seq<HunkForm>)

  ghost predicate DamagedOk(f: DamagedForm) {
    && HeaderOk(f.header) && NameOk(f.source) && NameOk(f.target) && DamageOk(f.damage) && HunkOk(f.next)
    && (forall h :: h in f.before ==> HunkOk(h)) && forall h :: h in f.after ==> HunkOk(h)
  }

  function DamagedLines(f: DamagedForm): seq<string> {
    TopLines(f.header, f.source, f.target)
    + (HunksLines(f.before) + (HunkLines(f.damage.f) + f.damage.junk + HunkLines(f.next)) + HunksLines(f.after))
  }

  function DamagedHunks(f: DamagedForm): seq<Hunk> {
    HunksOf(f.before) + [Damaged(f.damage), HunkOf(f.next)] + HunksOf(f.after)
  }

  function DamagedOf(f: DamagedForm): Patch {
    Patch(f.source.name, f.target.name, DamagedHunks(f), Ends(0, 0, 0), f.header)
  }

  lemma BeforeTaken(s: State, hs: seq<HunkForm>, items: seq<Patch>, p: Patch)
    requires (forall h :: h in hs ==> HunkOk(h)) && Opened(s, items, p)
    ensures var t, q := Run(s, HunksLines(hs)), p.(hunks := p.hunks + HunksOf(hs));
            Opened(t, items, q) || Between(t, items, q)
  {
    if hs == [] {
      assert p.hunks + HunksOf(hs) == p.hunks;
    } else {
      hide HunkOk;
      HunksTaken(s, hs, items, p);
    }
  }

  lemma DamagedHunksTaken(s: State, f: DamagedForm, items: seq<Patch>, p: Patch)
    requires DamagedOk(f) && Opened(s, items, p) && p.hunks == []
    ensures var t := Run(s, HunksLines(f.before) + (HunkLines(f.damage.f) + f.damage.junk + HunkLines(f.next)));
            && t.errors == 1
            && Between(t.(errors := 0), items, p.(hunks := HunksOf(f.before) + [Damaged(f.damage), HunkOf(f.next)]))
  {
    hide Run; hide Opened; hide Between; hide HunkOk; hide DamageOk; hide NameOk; hide HeaderOk; hide HunkLines;
    hide HunksLines; hide HunksOf; hide HunkOf; hide Damaged;
    var mid := HunkLines(f.damage.f) + f.damage.junk + HunkLines(f.next);
    RunCat(s, HunksLines(f.before), mid);
    BeforeTaken(s, f.before, items, p);
    assert [] + HunksOf(f.before) == HunksOf(f.before);
    DamageThenHunk(Run(s, HunksLines(f.before)), f.damage, f.next, items, p.(hunks := HunksOf(f.before)));
  }

  lemma AfterTaken(s: State, hs: seq<HunkForm>, items: seq<Patch>, p: Patch)
    requires s.errors == 1 && Between(s.(errors := 0), items, p) && forall h :: h in hs ==> HunkOk(h)
    ensures var t, q := Run(s, HunksLines(hs)), p.(hunks := p.hunks + HunksOf(hs));
            t.errors == 1 && Outside(t.(errors := 0), items + [q], [])
  {
    hide Run; hide Between; hide Outside; hide HunkOk; hide HunksLines; hide HunksOf;
    var s0, q := s.(errors := 0), p.(hunks := p.hunks + HunksOf(hs));
    assert More(s0, 1) == s;
    HunksTaken(s0, hs, items, p);
    RunCounts(s0, HunksLines(hs), 1);
    var t := Run(s0, HunksLines(hs));
    NoErrors(t, items, q);
    BetweenOutside(t, items, q);
    assert More(t, 1).(errors := 0) == t;
  }

  lemma DamagedTaken(s: State, f: DamagedForm, items: seq<Patch>)
    requires DamagedOk(f) && Outside(s, items, [])
    ensures var t := Run(s, DamagedLines(f)); t.errors == 1 && Outside(t.(errors := 0), items + [DamagedOf(f)], [])
  {
    var top := TopLines(f.header, f.source, f.target);
    var mid := HunksLines(f.before) + (HunkLines(f.damage.f) + f.damage.junk + HunkLines(f.next));
    var p := Patch(f.source.name, f.target.name, [], Ends(0, 0, 0), f.header);
    hide Run; hide Opened; hide Between; hide Outside; hide HunkOk; hide DamageOk; hide NameOk; hide HeaderOk; hide HunkLines;
    hide HunksLines; hide TopLines; hide HunksOf; hide HunkOf; hide Damaged;
    RunCat(s, top, mid + HunksLines(f.after));
    var s1 := Run(s, top);
    RunCat(s1, mid, HunksLines(f.after));
    TopTaken(s, f.header, f.source, f.target, items);
    DamagedHunksTaken(s1, f, items, p);
    AfterTaken(Run(s1, mid), f.after, items, p.(hunks := HunksOf(f.before) + [Damaged(f.damage), HunkOf(f.next)]));
  }

  /** A patch with one hunk that ends too early, whatever follows it before the next head
      line: one error is reported and the patch is refused as a whole, but nothing else is
      lost.  The hunk is kept, marked invalid, and every other hunk of every file is read. */
  lemma DamageContained(fs: seq<FileForm>, f: DamagedForm, gs: seq<FileForm>, trailer: seq<string>)
    requires (forall x :: x in fs ==> FileOk(x)) && DamagedOk(f)
    requires (forall x :: x in gs ==> FileOk(x)) && HeaderOk(trailer)
    ensures var r := Parsed(AllLines(fs) + (DamagedLines(f) + (AllLines(gs) + trailer)));
            r.errors == 1 && !r.ok && AllLike(r.items, FilesOf(fs) + [DamagedOf(f)] + FilesOf(gs))
  {
    hide FileOk; hide Run; hide AllLines; hide HeaderOk; hide DamagedOk; hide DamagedLines; hide DamagedOf; hide AllLike;
    assert [] + FilesOf(fs) == FilesOf(fs);
    StartOutside();
    FilesTaken(START, fs, []);
    RunCat(START, AllLines(fs), DamagedLines(f) + (AllLines(gs) + trailer));
    var s1 := Run(START, AllLines(fs));
    hide FilesOf; hide Outside;
    DamagedTaken(s1, f, FilesOf(fs));
    RunCat(s1, DamagedLines(f), AllLines(gs) + trailer);
    var s2 := Run(s1, DamagedLines(f));
    var items := FilesOf(fs) + [DamagedOf(f)];
    FilesTaken(s2.(errors := 0), gs, items);
    var all := items + FilesOf(gs);
    RunCat(s2.(errors := 0), AllLines(gs), trailer);
    var s3 := Run(s2.(errors := 0), AllLines(gs));
    assert trailer[..0] == [] && trailer[0..] == trailer;
    HeaderRead(s3, all, trailer, 0);
    assert More(s2.(errors := 0), 1) == s2;
    RunCounts(s2.(errors := 0), AllLines(gs) + trailer, 1);
    WithOneError(Run(s3, trailer), all, trailer);
  }

  lemma StartOutside()
    ensures Outside(START, [], [])
  {
  }

  lemma WithOneError(s: State, items: seq<Patch>, header: seq<string>)
    requires Outside(s, items, header) && items != []
    ensures var r := Finish(More(s, 1)); r.errors == 1 && !r.ok && AllLike(r.items, items)
  {
  }

  // ----- input without a complete patch -----

  /** Text without a patch is refused; it is an error unless it is empty. */
  lemma NothingFound(lines: seq<string>)
    requires HeaderOk(lines)
    ensures var r := Parsed(lines); !r.ok && r.items == [] && r.errors == (if lines == [] then 0 else 1)
  {
    StartOutside();
    assert lines[..0] == [] && lines[0..] == lines;
    HeaderRead(START, [], lines, 0);
    hide Run;
    NothingStored(Run(START, lines), lines);
  }

  lemma NothingStored(s: State, header: seq<string>)
    requires Outside(s, [], header) && (header == [] ==> s == START)
    ensures var r := Finish(s); !r.ok && r.items == [] && r.errors == (if header == [] then 0 else 1)
  {
  }

  /** A file that ends within a hunk: an error, and the hunk is not kept. */
  lemma CutShort(fs: seq<FileForm>, header: seq<string>, source: NameForm, target: NameForm,
                 before: seq<HunkForm>, f: HunkForm)
    requires (forall x :: x in fs ==> FileOk(x)) && HeaderOk(header) && NameOk(source) && NameOk(target)
    requires (forall h :: h in before ==> HunkOk(h)) && TailOk(f.tail) && Short(HunkOf(f))
    ensures var r := Parsed(AllLines(fs) + (TopLines(header, source, target) + (HunksLines(before) + HunkLines(f))));
            && r.errors == 1 && !r.ok
            && AllLike(r.items, FilesOf(fs) + [Patch(source.name, target.name, HunksOf(before), Ends(0, 0, 0), header)])
  {
    var top := TopLines(header, source, target);
    var p := Patch(source.name, target.name, [], Ends(0, 0, 0), header);
    assert [] + FilesOf(fs) == FilesOf(fs) && [] + HunksOf(before) == HunksOf(before);
    StartOutside();
    RunCat(START, AllLines(fs), top + (HunksLines(before) + HunkLines(f)));
    var s := Run(START, AllLines(fs));
    RunCat(s, top, HunksLines(before) + HunkLines(f));
    var s1 := Run(s, top);
    RunCat(s1, HunksLines(before), HunkLines(f));
    hide Run; hide AllLines; hide FilesOf; hide HunksLines; hide HunkLines; hide HunksOf; hide HunkOf; hide TopLines;
    hide FileOk;
    hide HeaderOk; hide NameOk; hide HunkOk; hide TailOk; hide Short; hide Outside; hide Opened; hide Between; hide AllLike;
    hide Inside;
    FilesTaken(START, fs, []);
    TopTaken(s, header, source, target, FilesOf(fs));
    BeforeTaken(s1, before, FilesOf(fs), p);
    var q := p.(hunks := p.hunks + HunksOf(before));
    ShortRead(Run(s1, HunksLines(before)), f, FilesOf(fs), q);
    EndsInside(Run(Run(s1, HunksLines(before)), HunkLines(f)), HunkOf(f), FilesOf(fs), q);
  }

  lemma EndsInside(s: State, h: Hunk, items: seq<Patch>, p: Patch)
    requires Inside(s, h, |h.text|, items, p)
    ensures var r := Finish(s); r.errors == 1 && !r.ok && AllLike(r.items, items + [p])
  {
    LikeStored(s.kept, items, p);
    hide Like;
  }
}
