/** The files the parser of lib/patch.py accepts as they are found in the wild: with
    headers, with dates after the names, with counts left out, with descriptions and with
    empty lines in hunks. */
module PatchForms {
  import opened Wrappers
  import opened PatchTypes
  import opened PatchParse

  // ----- names -----

  /** A file name as it stands on its line: with space around it, and perhaps a tab and a
      date after it. */
  datatype NameForm = NameForm(before: string, name: string, after: string, date: Option<string>)

  predicate Blanks(s: string) { forall c :: c in s ==> Space(c) && c != '\t' && c != '\n' }

  predicate NameOk(n: NameForm) {
    && Blanks(n.before) && Blanks(n.after)
    && n.name != "" && !Space(n.name[0]) && !Space(n.name[|n.name| - 1]) && '\t' !in n.name && '\n' !in n.name
  }

  function NameLine(mark: string, n: NameForm): string {
    mark + (n.before + n.name + n.after + if n.date.Some? then "\t" + n.date.value + "\n" else "\n")
  }

  lemma {:induction false} TrimLeftOf(a: string, b: string)
    requires (forall c :: c in a ==> Space(c)) && (b == "" || !Space(b[0]))
    ensures TrimLeft(a + b) == b
  {
    if a == "" {
      assert a + b == b;
    } else {
      assert (a + b)[1..] == a[1..] + b && (a + b)[0] in a;
      TrimLeftOf(a[1..], b);
    }
  }

  lemma {:induction false} TrimRightOf(a: string, b: string)
    requires (a == "" || !Space(a[|a| - 1])) && forall c :: c in b ==> Space(c)
    ensures TrimRight(a + b) == a
    decreases |b|
  {
    if b == "" {
      assert a + b == a;
    } else {
      var s := a + b;
      assert s[..|s| - 1] == a + b[..|b| - 1] && s[|s| - 1] in b;
      TrimRightOf(a, b[..|b| - 1]);
    }
  }

  lemma TrimOf(a: string, b: string, c: string)
    requires (forall x :: x in a ==> Space(x)) && (forall x :: x in c ==> Space(x))
    requires b != "" && !Space(b[0]) && !Space(b[|b| - 1])
    ensures Trim(a + b + c) == b
  {
    assert a + b + c == a + (b + c);
    TrimLeftOf(a, b + c);
    TrimRightOf(b, c);
  }

  lemma {:induction false} UntilTab(a: string, rest: string)
    requires '\t' !in a && (rest == "" || rest[0] == '\t')
    ensures Until(a + rest, '\t') == a
  {
    if a == "" {
      assert a + rest == rest;
    } else {
      assert (a + rest)[1..] == a[1..] + rest && (a + rest)[0] in a;
      UntilTab(a[1..], rest);
    }
  }

  /** The name on a line is found whatever stands around it. */
  lemma NameRead(mark: string, n: NameForm)
    requires |mark| == 4 && NameOk(n)
    ensures FileName(NameLine(mark, n)) == Some(n.name)
  {
    var core := n.before + n.name + n.after;
    var rest := if n.date.Some? then "\t" + n.date.value + "\n" else "\n";
    assert NameLine(mark, n) == mark + (core + rest);
    Cut(mark, core + rest);
    assert core != "" && forall c :: c in core ==> c in n.before || c in n.name || c in n.after;
    assert core[0] in core && (core + rest)[0] == core[0] && NameLine(mark, n)[4] == (core + rest)[0];
    if n.date.Some? {
      UntilTab(core, rest);
      TrimOf(n.before, n.name, n.after);
    } else {
      assert core + rest + "" == core + rest;
      UntilTab(core + rest, "");
      assert n.before + n.name + (n.after + "\n") == core + "\n";
      TrimOf(n.before, n.name, n.after + "\n");
    }
  }

  // ----- the line that opens a hunk -----

  /** The text after the second @@: a character, the description, and space. */
  datatype Tail = NoTail | Tail(sep: char, desc: string, after: string)

  predicate TailOk(t: Tail) {
    t.Tail? ==>
      && t.sep != '\n' && '\n' !in t.desc && (t.desc == "" || !Space(t.desc[|t.desc| - 1])) && Blanks(t.after)
  }

  function TailText(t: Tail): string { if t.NoTail? then "" else [t.sep] + t.desc + t.after }

  function Desc(t: Tail): string { if t.NoTail? then "" else t.desc }

  /** A number, with a comma and a count or without; left out, the count is 1. */
  function Spelled(start: nat, lines: nat, counted: bool): string {
    if counted then Dec(start) + ("," + Dec(lines)) else Dec(start)
  }

  /** A head line, with either count written or left out. */
  function HeadText(a: nat, m: nat, srcCount: bool, b: nat, n: nat, tgtCount: bool, t: Tail): string {
    "@@ -" + (Spelled(a, m, srcCount) + (" +" + (Spelled(b, n, tgtCount) + (" @@" + (TailText(t) + "\n")))))
  }

  lemma RangeRead(start: nat, lines: nat, counted: bool, rest: string)
    requires rest != "" && rest[0] == ' '
    ensures ParseRange(Spelled(start, lines, counted) + rest) == Some(Range(start, if counted then lines else 1, rest))
  {
    if counted {
      RangePrinted(start, lines, rest);
      assert Spelled(start, lines, true) + rest == Dec(start) + ("," + (Dec(lines) + rest));
    } else {
      DecIs(start);
      DigitsOf(Dec(start), rest);
      var s := Dec(start) + rest;
      assert s[|Dec(start)|..] == rest && s[..|Dec(start)|] == Dec(start);
    }
  }

  lemma {:induction false} UntilLine(a: string)
    requires '\n' !in a
    ensures Until(a + "\n", '\n') == a
  {
    if a == "" {
      assert a + "\n" == "\n";
    } else {
      assert (a + "\n")[1..] == a[1..] + "\n";
      UntilLine(a[1..]);
    }
  }

  lemma TailRead(t: Tail, h: Head)
    requires TailOk(t) && h.tgt.rest == " @@" + (TailText(t) + "\n")
    ensures NewHunk(h) == Hunk(h.src.start, h.src.lines, h.tgt.start, h.tgt.lines, false, Desc(t), [])
    ensures Starts(h.tgt.rest, " @@")
  {
    var text := TailText(t);
    Cut(" @@", text + "\n");
    if t.Tail? {
      assert forall c :: c in text ==> c == t.sep || c in t.desc || c in t.after;
      UntilLine(text);
      assert text[1..] == t.desc + t.after;
      TrimRightOf(t.desc, t.after);
    } else {
      UntilLine("");
      assert "" + "\n" == "\n";
    }
  }

  /** The four ways to write a head are read alike: a count that is left out is 1, and the
      text after the second @@ is the description. */
  lemma HeadTextRead(a: nat, m: nat, srcCount: bool, b: nat, n: nat, tgtCount: bool, t: Tail)
    requires TailOk(t)
    ensures ParseHead(HeadText(a, m, srcCount, b, n, tgtCount, t)).Some?
    ensures NewHunk(ParseHead(HeadText(a, m, srcCount, b, n, tgtCount, t)).value)
         == Hunk(a, if srcCount then m else 1, b, if tgtCount then n else 1, false, Desc(t), [])
    ensures HeadText(a, m, srcCount, b, n, tgtCount, t)[0] == '@'
  {
    var end := " @@" + (TailText(t) + "\n");
    var tgt := Spelled(b, n, tgtCount) + end;
    var mid := " +" + tgt;
    var src := Spelled(a, m, srcCount) + mid;
    RangeRead(a, m, srcCount, mid);
    RangeRead(b, n, tgtCount, end);
    var x, y := Range(a, if srcCount then m else 1, mid), Range(b, if tgtCount then n else 1, end);
    TailRead(t, Head(x, y));
    hide Spelled; hide ParseRange; hide ParseHead; hide NewHunk; hide TailText; hide Desc;
    HeadOf(src, x, tgt, y);
    assert HeadText(a, m, srcCount, b, n, tgtCount, t) == "@@ -" + src;
  }

  // ----- hunks -----

  /** An empty line of a body stands for a single space. */
  function Expand(l: string): string { if Blank(l) then " " + l else l }

  function ExpandAll(lines: seq<string>): seq<string> { seq(|lines|, i requires 0 <= i < |lines| => Expand(lines[i])) }

  /** A hunk as it is written: its head, and its lines. */
  datatype HunkForm = HunkForm(a: nat, m: nat, srcCount: bool, b: nat, n: nat, tgtCount: bool, tail: Tail, lines: seq<string>)

  function HunkOf(f: HunkForm): Hunk {
    Hunk(f.a, if f.srcCount then f.m else 1, f.b, if f.tgtCount then f.n else 1, false, Desc(f.tail), ExpandAll(f.lines))
  }

  function HunkLines(f: HunkForm): seq<string> {
    [HeadText(f.a, f.m, f.srcCount, f.b, f.n, f.tgtCount, f.tail)] + f.lines
  }

  ghost predicate HunkOk(f: HunkForm) { TailOk(f.tail) && Complete(HunkOf(f)) }

  /** One line of a body, expanded or not. */
  lemma LineRead(s: State, h: Hunk, k: nat, l: string, items: seq<Patch>, p: Patch)
    requires Complete(h) && !h.invalid && k < |h.text| && h.text[k] == Expand(l) && Midway(s, h, k)
    requires Like(s.kept, items, p) && s.errors == 0 && s.header == []
    ensures var t := Step(s, l);
            && (k + 1 < |h.text| ==> Midway(t, h, k + 1) && Like(t.kept, items, p) && t.errors == 0 && t.header == [])
            && (k + 1 == |h.text| ==> Between(t, items, p.(hunks := p.hunks + [h])))
  {
    if Blank(l) {
      BlankRead(s, l);
      var s1 := s.(warnings := s.warnings + 1);
      assert BodyMark(" " + l) && !Blank(" " + l) by {
        assert (" " + l)[0] == ' ';
        MarkNotBlank(" " + l);
      }
      hide Blank; hide Step; hide Complete;
      assert Midway(s1, h, k);
      MidwayStep(s1, h, k, items, p);
    } else {
      hide Step; hide Complete; hide Midway; hide Like;
      MidwayStep(s, h, k, items, p);
    }
  }

  /** Within a body an empty line is read as a space, with a warning. */
  lemma BlankRead(s: State, l: string)
    requires Blank(l) && s.f == NOWHERE.(hunkbody := true) && !s.inHeader
    ensures Step(s, l) == Step(s.(warnings := s.warnings + 1), " " + l)
  {
    var w := " " + l;
    assert w[0] == ' ' && !Blank(w) by {
      assert w[0] in w;
    }
    hide Blank; hide Take; hide Check; hide ParseHead;
    var s1 := s.(warnings := s.warnings + 1);
    assert Body(s, l) == Check(Take(s1, w), w) && Body(s1, w) == Check(Take(s1, w), w);
  }

  lemma {:induction false} LinesRead(s: State, h: Hunk, k: nat, lines: seq<string>, items: seq<Patch>, p: Patch)
    requires Complete(h) && !h.invalid && k < |h.text| && h.text == ExpandAll(lines) && Midway(s, h, k)
    requires Like(s.kept, items, p) && s.errors == 0 && s.header == []
    ensures Between(Run(s, lines[k..]), items, p.(hunks := p.hunks + [h]))
    decreases |h.text| - k
  {
    LineRead(s, h, k, lines[k], items, p);
    RunNext(s, lines, k);
    hide Complete; hide Midway; hide Like; hide Step; hide Between;
    if k + 1 < |h.text| {
      LinesRead(Step(s, lines[k]), h, k + 1, lines, items, p);
    } else {
      assert lines[k + 1..] == [];
    }
  }

  lemma HeadTaken(s: State, f: HunkForm)
    requires TailOk(f.tail) && (s.f == NOWHERE.(hunkhead := true) || s.f == NOWHERE.(hunkparsed := true))
    ensures var t := Step(s, HunkLines(f)[0]);
            && Midway(t, HunkOf(f), 0) && t.kept == s.kept && t.errors == s.errors && t.header == s.header
  {
    HeadTextRead(f.a, f.m, f.srcCount, f.b, f.n, f.tgtCount, f.tail);
    hide ParseHead; hide NewHunk; hide HeadText; hide TailOk; hide Desc;
    assert HunkOf(f).text[..0] == [];
  }

  lemma HunkTaken(s: State, f: HunkForm, items: seq<Patch>, p: Patch)
    requires HunkOk(f) && (Opened(s, items, p) || Between(s, items, p))
    ensures Between(Run(s, HunkLines(f)), items, p.(hunks := p.hunks + [HunkOf(f)]))
  {
    HeadTaken(s, f);
    var head := HunkLines(f)[0];
    RunCat(s, [head], f.lines);
    RunOne(s, head);
    assert HunkLines(f) == [head] + f.lines && f.lines[0..] == f.lines;
    assert |ExpandAll(f.lines)| == |f.lines|;
    hide Midway; hide Step; hide Like; hide HeadText; hide TailOk; hide ExpandAll;
    NotEmpty(HunkOf(f));
    hide Complete;
    LinesRead(Step(s, head), HunkOf(f), 0, f.lines, items, p);
  }

  lemma NotEmpty(h: Hunk)
    requires Complete(h)
    ensures h.text != []
  {
  }

  // ----- files -----

  /** A file as it is written: what stands before it, its names and its hunks. */
  datatype FileForm = FileForm(header: seq<string>, source: NameForm, target: NameForm, hunks: seq<HunkForm>)

  /** Lines that are taken for a header: none begins like a file name, and after a hunk
      the first is no head line. */
  predicate HeaderOk(lines: seq<string>) {
    (forall l :: l in lines ==> !Starts(l, "--- ")) && (lines != [] ==> ParseHead(lines[0]).None?)
  }

  ghost predicate FileOk(f: FileForm) {
    && HeaderOk(f.header) && NameOk(f.source) && NameOk(f.target) && f.hunks != []
    && forall h :: h in f.hunks ==> HunkOk(h)
  }

  function HunksLines(hs: seq<HunkForm>): seq<string> { if hs == [] then [] else HunkLines(hs[0]) + HunksLines(hs[1..]) }

  function HunksOf(hs: seq<HunkForm>): seq<Hunk> { if hs == [] then [] else [HunkOf(hs[0])] + HunksOf(hs[1..]) }

  function FileLines(f: FileForm): seq<string> {
    f.header + ([NameLine("--- ", f.source)] + ([NameLine("+++ ", f.target)] + HunksLines(f.hunks)))
  }

  function FileOf(f: FileForm): Patch { Patch(f.source.name, f.target.name, HunksOf(f.hunks), Ends(0, 0, 0), f.header) }

  function AllLines(fs: seq<FileForm>): seq<string> { if fs == [] then [] else FileLines(fs[0]) + AllLines(fs[1..]) }

  function FilesOf(fs: seq<FileForm>): seq<Patch> { if fs == [] then [] else [FileOf(fs[0])] + FilesOf(fs[1..]) }

  /** Between two files, after some lines of a header. */
  ghost predicate Outside(s: State, items: seq<Patch>, header: seq<string>) {
    && (s.f == NOWHERE.(hunkparsed := true) || s.f == NOWHERE.(headscan := true))
    && (header != [] ==> s.f.headscan)
    && (s.inHeader <==> header != []) && s.header == header && s.errors == 0
    && AllLike(Stored(s.kept), items) && (items != [] ==> s.kept.p.Some?)
  }

  lemma HeaderLineRead(s: State, items: seq<Patch>, header: seq<string>, l: string)
    requires Outside(s, items, header) && !Starts(l, "--- ") && (header == [] ==> ParseHead(l).None?)
    ensures Outside(Step(s, l), items, header + [l])
  {
    hide ParseHead; hide Starts; hide AllLike; hide Stored;
  }

  lemma {:induction false} HeaderRead(s: State, items: seq<Patch>, lines: seq<string>, k: nat)
    requires HeaderOk(lines) && k <= |lines| && Outside(s, items, lines[..k])
    ensures Outside(Run(s, lines[k..]), items, lines)
    decreases |lines| - k
  {
    hide Outside; hide Step; hide ParseHead; hide Starts;
    if k < |lines| {
      assert lines[k] in lines;
      HeaderLineRead(s, items, lines[..k], lines[k]);
      assert lines[..k] + [lines[k]] == lines[..k + 1];
      RunNext(s, lines, k);
      HeaderRead(Step(s, lines[k]), items, lines, k + 1);
    } else {
      assert lines[k..] == [] && lines[..k] == lines;
    }
  }

  lemma SourceTaken(s: State, items: seq<Patch>, header: seq<string>, n: NameForm)
    requires Outside(s, items, header) && NameOk(n)
    ensures var t := Step(s, NameLine("--- ", n));
            && t.f == NOWHERE.(filenames := true) && t.kept == s.kept && t.srcname == Some(n.name)
            && t.errors == 0 && t.header == header
  {
    NameRead("--- ", n);
    var l := NameLine("--- ", n);
    assert l[..4] == "--- ";
    assert l[0] == '-' && !Starts(l, "@@ -");
    assert ParseHead(l).None?;
    hide ParseHead; hide FileName; hide NameLine; hide NameOk; hide AllLike; hide Stored;
  }

  lemma TargetTaken(s: State, source: string, header: seq<string>, n: NameForm, items: seq<Patch>)
    requires NameOk(n) && s.f == NOWHERE.(filenames := true) && s.srcname == Some(source)
    requires s.errors == 0 && s.header == header && AllLike(Stored(s.kept), items)
    ensures Opened(Step(s, NameLine("+++ ", n)), items, Patch(source, n.name, [], Ends(0, 0, 0), header))
  {
    NameRead("+++ ", n);
    var l := NameLine("+++ ", n);
    assert l[..4] == "+++ " && l[0] == '+' && !Starts(l, "--- ");
    OpenLike(s.kept, items, Patch(source, n.name, [], Ends(0, 0, 0), header));
    hide ParseHead; hide FileName; hide NameLine; hide NameOk; hide AllLike; hide Stored; hide Like; hide Open;
  }

  lemma {:induction false} HunksTaken(s: State, hs: seq<HunkForm>, items: seq<Patch>, p: Patch)
    requires forall h :: h in hs ==> HunkOk(h)
    requires Between(s, items, p) || (Opened(s, items, p) && hs != [])
    ensures Between(Run(s, HunksLines(hs)), items, p.(hunks := p.hunks + HunksOf(hs)))
    decreases |hs|
  {
    hide HunkOk; hide Between; hide Opened; hide Step; hide HunkLines; hide HunkOf;
    if hs == [] {
      assert p.hunks + [] == p.hunks;
    } else {
      var h, rest := hs[0], hs[1..];
      assert h in hs && forall x :: x in rest ==> x in hs;
      HunkTaken(s, h, items, p);
      RunCat(s, HunkLines(h), HunksLines(rest));
      var q := p.(hunks := p.hunks + [HunkOf(h)]);
      HunksTaken(Run(s, HunkLines(h)), rest, items, q);
      assert p.hunks + [HunkOf(h)] + HunksOf(rest) == p.hunks + ([HunkOf(h)] + HunksOf(rest));
    }
  }

  /** The lines before the first hunk. */
  function TopLines(header: seq<string>, source: NameForm, target: NameForm): seq<string> {
    header + ([NameLine("--- ", source)] + [NameLine("+++ ", target)])
  }

  lemma TopTaken(s: State, header: seq<string>, source: NameForm, target: NameForm, items: seq<Patch>)
    requires Outside(s, items, []) && HeaderOk(header) && NameOk(source) && NameOk(target)
    ensures Opened(Run(s, TopLines(header, source, target)), items, Patch(source.name, target.name, [], Ends(0, 0, 0), header))
  {
    var first, second := NameLine("--- ", source), NameLine("+++ ", target);
    assert header[..0] == [] && header[0..] == header;
    HeaderRead(s, items, header, 0);
    var s1 := Run(s, header);
    OutsideFacts(s1, items, header);
    hide Step; hide NameLine; hide HeaderOk; hide NameOk; hide Outside; hide Opened; hide AllLike; hide Stored;
    SourceTaken(s1, items, header, source);
    TargetTaken(Step(s1, first), source.name, header, target, items);
    RunCat(s, header, [first] + [second]);
    RunCat(s1, [first], [second]);
    RunOne(s1, first);
    RunOne(Step(s1, first), second);
  }

  lemma FileTaken(s: State, f: FileForm, items: seq<Patch>)
    requires FileOk(f) && Outside(s, items, [])
    ensures Outside(Run(s, FileLines(f)), items + [FileOf(f)], [])
  {
    var p := Patch(f.source.name, f.target.name, [], Ends(0, 0, 0), f.header);
    var top := TopLines(f.header, f.source, f.target);
    TopTaken(s, f.header, f.source, f.target, items);
    hide HunkOk; hide NameLine; hide HunksLines; hide HunksOf; hide HeaderOk; hide NameOk; hide Outside; hide Between;
    hide Opened; hide Run; hide HunkOf; hide TopLines; hide FileLines;
    HunksTaken(Run(s, top), f.hunks, items, p);
    assert [] + HunksOf(f.hunks) == HunksOf(f.hunks);
    RunCat(s, top, HunksLines(f.hunks));
    FileParts(f);
    BetweenOutside(Run(s, FileLines(f)), items, FileOf(f));
  }

  lemma FileParts(f: FileForm)
    ensures FileLines(f) == TopLines(f.header, f.source, f.target) + HunksLines(f.hunks)
  {
    hide NameLine; hide HunksLines;
  }

  lemma OutsideFacts(s: State, items: seq<Patch>, header: seq<string>)
    requires Outside(s, items, header)
    ensures s.errors == 0 && s.header == header && AllLike(Stored(s.kept), items)
  {
  }

  lemma BetweenOutside(s: State, items: seq<Patch>, p: Patch)
    requires Between(s, items, p)
    ensures Outside(s, items + [p], [])
  {
    LikeStored(s.kept, items, p);
    hide AllLike; hide Like; hide Stored;
  }

  lemma {:induction false} FilesTaken(s: State, fs: seq<FileForm>, items: seq<Patch>)
    requires (forall f :: f in fs ==> FileOk(f)) && Outside(s, items, [])
    ensures Outside(Run(s, AllLines(fs)), items + FilesOf(fs), [])
    decreases |fs|
  {
    hide FileOk; hide Outside; hide Step; hide FileLines; hide FileOf;
    if fs == [] {
      assert items + [] == items;
    } else {
      assert fs[0] in fs && forall f :: f in fs[1..] ==> f in fs;
      FileTaken(s, fs[0], items);
      RunCat(s, FileLines(fs[0]), AllLines(fs[1..]));
      FilesTaken(Run(s, FileLines(fs[0])), fs[1..], items + [FileOf(fs[0])]);
      assert items + [FileOf(fs[0])] + FilesOf(fs[1..]) == items + ([FileOf(fs[0])] + FilesOf(fs[1..]));
    }
  }

  /** Parsing well-formed patches as people write them: no error, and for each file its
      names, its header, and its hunks as valid, with the ranges (a count that was left
      out being 1), descriptions and lines that were written.  Lines after the last hunk
      do no harm. */
  lemma FormsParsed(fs: seq<FileForm>, trailer: seq<string>)
    requires fs != [] && (forall f :: f in fs ==> FileOk(f)) && HeaderOk(trailer)
    ensures var r := Parsed(AllLines(fs) + trailer);
            r.ok && r.errors == 0 && AllLike(r.items, FilesOf(fs))
  {
    hide FileOk; hide Run; hide AllLines; hide HeaderOk;
    assert [] + FilesOf(fs) == FilesOf(fs);
    FilesTaken(START, fs, []);
    RunCat(START, AllLines(fs), trailer);
    var s := Run(START, AllLines(fs));
    assert trailer[..0] == [] && trailer[0..] == trailer;
    HeaderRead(s, FilesOf(fs), trailer, 0);
    hide FilesOf;
    SomeFile(fs);
    Finished(Run(s, trailer), FilesOf(fs), trailer);
  }

  lemma SomeFile(fs: seq<FileForm>)
    requires fs != []
    ensures FilesOf(fs) != []
  {
  }

  lemma Finished(s: State, items: seq<Patch>, header: seq<string>)
    requires Outside(s, items, header) && items != []
    ensures var r := Finish(s); r.ok && r.errors == 0 && AllLike(r.items, items)
  {
  }

  // ----- what splitpatch prints -----

  function PlainName(name: string): NameForm { NameForm("", name, "", None) }

  function PlainHunk(h: Hunk): HunkForm {
    HunkForm(h.startsrc, h.linessrc, true, h.starttgt, h.linestgt, true, NoTail, h.text)
  }

  function PlainHunks(hs: seq<Hunk>): seq<HunkForm> { if hs == [] then [] else [PlainHunk(hs[0])] + PlainHunks(hs[1..]) }

  /** A file is printed in the plainest of these forms: no header, bare names, both counts,
      no description. */
  lemma PrintedForm(p: Patch)
    ensures PrintPatch(p) == FileLines(FileForm([], PlainName(p.source), PlainName(p.target), PlainHunks(p.hunks)))
  {
    HunksPrinted(p.hunks);
    NamePlain("--- ", p.source);
    NamePlain("+++ ", p.target);
    hide NameLine; hide PrintHunks; hide HunksLines;
  }

  lemma NamePlain(mark: string, name: string)
    ensures NameLine(mark, PlainName(name)) == mark + (name + "\n")
  {
    assert "" + name + "" + "\n" == name + "\n";
  }

  lemma {:induction false} HunksPrinted(hs: seq<Hunk>)
    ensures PrintHunks(hs) == HunksLines(PlainHunks(hs))
  {
    if hs != [] {
      HunksPrinted(hs[1..]);
      HeadPlain(hs[0]);
      hide HeadText; hide HeadLine;
    }
  }

  lemma HeadPlain(h: Hunk)
    ensures HeadLine(h) == HeadText(h.startsrc, h.linessrc, true, h.starttgt, h.linestgt, true, NoTail)
  {
    hide Dec;
    assert "" + "\n" == "\n";
  }

  // ----- no error, no invalid hunk -----

  predicate AllValid(hs: seq<Hunk>) { forall h :: h in hs ==> !h.invalid }

  predicate StoreValid(k: Store) {
    (forall p :: p in k.items ==> AllValid(p.hunks)) && (k.p.Some? ==> AllValid(k.p.value.hunks))
  }

  predicate Unblemished(s: State) { s.errors == 0 ==> StoreValid(s.kept) && (s.f.hunkbody ==> !s.read.hunk.invalid) }

  lemma BodyUnblemished(s: State, line: string)
    requires Unblemished(s)
    ensures Unblemished(Body(s, line).s)
  {
    hide Blank; hide Mixed; hide CountEnd;
  }

  lemma NamesUnblemished(s: State, line: string)
    requires Unblemished(s)
    ensures Unblemished(Names(s, line).s)
  {
    assert AllValid([]);
    hide FileName; hide Starts; hide AllValid;
  }

  lemma HunkLineUnblemished(s: State, line: string)
    requires Unblemished(s)
    ensures Unblemished(HunkLine(s, line))
  {
    hide StoreValid; hide ParseHead;
  }

  lemma StepUnblemished(s: State, line: string)
    requires Unblemished(s)
    ensures Unblemished(Step(s, line))
  {
    hide StoreValid; hide Body; hide Names; hide HunkLine; hide ParseHead; hide Starts;
    var a := Scan(s.(inHeader := false, f := Decided(s.f, line)), line);
    BodyUnblemished(a.s, line);
    var b := Body(a.s, line);
    var c := b.s.(f := Skipped(b.s.f, b.line));
    NamesUnblemished(c, b.line);
    HunkLineUnblemished(Names(c, b.line).s, b.line);
  }

  lemma {:induction false} RunUnblemished(s: State, lines: seq<string>)
    requires Unblemished(s)
    ensures Unblemished(Run(s, lines))
    decreases |lines|
  {
    hide Unblemished; hide Step;
    if lines != [] {
      StepUnblemished(s, lines[0]);
      RunUnblemished(Step(s, lines[0]), lines[1..]);
    }
  }

  /** Whatever is parsed: if no error was counted, every hunk is valid, and so complete. */
  lemma NoErrorAllComplete(lines: seq<string>)
    ensures Parsed(lines).errors == 0 ==>
              forall p, h :: p in Parsed(lines).items && h in p.hunks ==> !h.invalid && Complete(h)
  {
    hide Complete; hide Step;
    AcceptedComplete(lines);
    RunUnblemished(START, lines);
  }
}
