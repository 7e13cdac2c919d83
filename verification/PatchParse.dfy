/** The unified-diff parser of lib/patch.py, a machine driven by flags, line by line, and
    the printer of lib/splitpatch.py that it reads back. */
module PatchParse {
  import opened Wrappers
  import opened PatchTypes
  import TextLines

  datatype Patch = Patch(source: string, target: string, hunks: seq<Hunk>, ends: Ends, header: seq<string>)

  // ----- strings -----

  function Starts(s: string, t: string): bool { |t| <= |s| && s[..|t|] == t }

  predicate Space(c: char) { c == ' ' || 9 <= c as int <= 13 || 28 <= c as int <= 31 }

  function TrimLeft(s: string): string { if s != "" && Space(s[0]) then TrimLeft(s[1..]) else s }

  function TrimRight(s: string): string
    decreases |s|
  {
    if s != "" && Space(s[|s| - 1]) then TrimRight(s[..|s| - 1]) else s
  }

  function Trim(s: string): string { TrimRight(TrimLeft(s)) }

  /** The text before the first c, or all of it. */
  function Until(s: string, c: char): string {
    if s == "" || s[0] == c then "" else [s[0]] + Until(s[1..], c)
  }

  /** A line of nothing but line ends. */
  predicate Blank(s: string) { forall c :: c in s ==> c == '\r' || c == '\n' }

  // ----- numbers -----

  predicate Digit(c: char) { '0' <= c <= '9' }

  function Digits(s: string): (n: nat)
    ensures n <= |s|
  {
    if s == "" || !Digit(s[0]) then 0 else 1 + Digits(s[1..])
  }

  function Num(s: string): nat {
    if s == "" then 0
    else Num(s[..|s| - 1]) * 10 + (if Digit(s[|s| - 1]) then s[|s| - 1] as int - '0' as int else 0)
  }

  function Dec(n: nat): string {
    if n < 10 then [(n + '0' as int) as char] else Dec(n / 10) + [(n % 10 + '0' as int) as char]
  }

  lemma {:induction false} DecIs(n: nat)
    ensures Dec(n) != "" && Num(Dec(n)) == n && forall c :: c in Dec(n) ==> Digit(c)
  {
    if n < 10 {
      assert Dec(n)[..0] == "";
    } else {
      DecIs(n / 10);
      assert Dec(n)[..|Dec(n)| - 1] == Dec(n / 10);
    }
  }

  lemma {:induction false} DigitsOf(s: string, t: string)
    requires (forall c :: c in s ==> Digit(c)) && (t == "" || !Digit(t[0]))
    ensures Digits(s + t) == |s|
  {
    if s == "" {
      assert s + t == t;
    } else {
      DigitsOf(s[1..], t);
      assert (s + t)[1..] == s[1..] + t && (s + t)[0] in s;
    }
  }

  // ----- the hunk line -----

  datatype Range = Range(start: nat, lines: nat, rest: string)

  /** A number, and after a comma another, which is 1 if it is missing. */
  function ParseRange(s: string): Option<Range> {
    var n := Digits(s);
    if n == 0 then None
    else
      var t := s[n..];
      if t != "" && t[0] == ',' && Digits(t[1..]) > 0 then
        var m := Digits(t[1..]);
        Some(Range(Num(s[..n]), Num(t[1..][..m]), t[1..][m..]))
      else Some(Range(Num(s[..n]), 1, t))
  }

  datatype Head = Head(src: Range, tgt: Range)

  /** @@ -R +R @@ */
  function ParseHead(line: string): Option<Head> {
    if !Starts(line, "@@ -") then None
    else
      var src := ParseRange(line[4..]);
      if src.None? || !Starts(src.value.rest, " +") then None
      else
        var tgt := ParseRange(src.value.rest[2..]);
        if tgt.None? || !Starts(tgt.value.rest, " @@") then None else Some(Head(src.value, tgt.value))
  }

  function NewHunk(h: Head): Hunk {
    var tail := Until(h.tgt.rest[if |h.tgt.rest| < 3 then |h.tgt.rest| else 3..], '\n');
    Hunk(h.src.start, h.src.lines, h.tgt.start, h.tgt.lines, false,
         TrimRight(if tail == "" then "" else tail[1..]), [])
  }

  // ----- the machine -----

  /** The regions of the file the parser may be in. */
  datatype Flags = Flags(headscan: bool, filenames: bool, hunkhead: bool, hunkbody: bool, hunkskip: bool, hunkparsed: bool)

  /** The patch being put together, and those before it. */
  datatype Store = Store(p: Option<Patch>, items: seq<Patch>)

  /** The hunk being read, and how many of its lines have been seen on either side. */
  datatype Reading = Reading(hunk: Hunk, src: nat, tgt: nat)

  /** The flags and buffers of the parser; inHeader tells that the header loop took the
      last line. */
  datatype State = State(f: Flags, inHeader: bool, kept: Store, read: Reading, srcname: Option<string>,
                         header: seq<string>, errors: nat, warnings: nat)

  const NOWHERE := Flags(false, false, false, false, false, false)

  const START := State(NOWHERE.(headscan := true), false, Store(None, []),
                       Reading(Hunk(0, 0, 0, 0, false, "", []), 0, 0), None, [], 0, 0)

  /** The state and the line after a block, and whether the line is done with. */
  datatype Next = Next(s: State, line: string, done: bool)

  function Decided(f: Flags, line: string): Flags {
    if !f.hunkparsed then f
    else if ParseHead(line).Some? then f.(hunkparsed := false, hunkhead := true)
    else if Starts(line, "--- ") then f.(hunkparsed := false, filenames := true)
    else f.(hunkparsed := false, headscan := true)
  }

  function Scan(s: State, line: string): Next {
    if !s.f.headscan then Next(s, line, false)
    else if !Starts(line, "--- ") then Next(s.(header := s.header + [line], inHeader := true), line, true)
    else Next(s.(f := s.f.(headscan := false, filenames := true)), line, false)
  }

  predicate BodyMark(line: string) { line != "" && (line[0] in "-+ \\") }

  function Mixed(e: Ends): bool {
    (if e.cr != 0 then 1 else 0) + (if e.crlf != 0 then 1 else 0) + (if e.lf != 0 then 1 else 0) > 1
  }

  function WithHunk(k: Store, h: Hunk): Store {
    if k.p.None? then k else k.(p := Some(k.p.value.(hunks := k.p.value.hunks + [h])))
  }

  function WithEnds(k: Store, line: string): Store {
    if k.p.None? then k else k.(p := Some(k.p.value.(ends := CountEnd(k.p.value.ends, line))))
  }

  /** The hunk is kept, marked invalid, and its lines are skipped from here on. */
  function Reject(s: State): State {
    var h := s.read.hunk.(invalid := true);
    s.(read := s.read.(hunk := h), kept := WithHunk(s.kept, h), errors := s.errors + 1,
       f := s.f.(hunkbody := false, hunkskip := true))
  }

  /** One line of the body. */
  function Read(r: Reading, l: string): Reading
    requires BodyMark(l)
  {
    Reading(r.hunk.(text := r.hunk.text + [l]),
            r.src + (if l[0] == '-' || l[0] == ' ' then 1 else 0),
            r.tgt + (if l[0] == '+' || l[0] == ' ' then 1 else 0))
  }

  function Take(s: State, l: string): State {
    if BodyMark(l) then s.(kept := WithEnds(s.kept, l), read := Read(s.read, l)) else Reject(s)
  }

  /** The checks after each line of the body. */
  function Check(s: State, line: string): Next {
    var r := s.read;
    if r.src > r.hunk.linessrc || r.tgt > r.hunk.linestgt then Next(Reject(s), line, false)
    else if r.src == r.hunk.linessrc && r.tgt == r.hunk.linestgt then
      var k := WithHunk(s.kept, r.hunk);
      Next(s.(kept := k, f := s.f.(hunkbody := false, hunkparsed := true),
              warnings := if k.p.Some? && Mixed(k.p.value.ends) then s.warnings + 1 else s.warnings), line, true)
    else Next(s, line, false)
  }

  function Body(s: State, line: string): Next {
    if !s.f.hunkbody then Next(s, line, false)
    else if Blank(line) then Check(Take(s.(warnings := s.warnings + 1), " " + line), " " + line)
    else Check(Take(s, line), line)
  }

  function Skipped(f: Flags, line: string): Flags {
    if !f.hunkskip then f
    else if ParseHead(line).Some? then f.(hunkskip := false, hunkhead := true)
    else if Starts(line, "--- ") then f.(hunkskip := false, filenames := true)
    else f
  }

  /** The name on a --- or +++ line: up to a tab, trimmed; None if there is none. */
  function FileName(line: string): Option<string> {
    if |line| <= 4 || line[4] == '\t' then None else Some(Trim(Until(line[4..], '\t')))
  }

  /** Back to scanning for a header, with one more error or none. */
  function Restart(s: State, errors: nat): State {
    s.(srcname := None, errors := s.errors + errors, f := s.f.(filenames := false, headscan := true))
  }

  function Open(k: Store, p: Patch): Store {
    Store(Some(p), if k.p.Some? then k.items + [k.p.value] else k.items)
  }

  function Names(s: State, line: string): Next {
    if !s.f.filenames then Next(s, line, false)
    else if Starts(line, "--- ") then
      var name := FileName(line);
      Next(if name.Some? then s.(srcname := name) else Restart(s, 1), line, false)
    else if !Starts(line, "+++ ") then Next(Restart(s, if s.srcname.Some? then 1 else 0), line, false)
    else
      var name := FileName(line);
      if name.None? then Next(Restart(s, 1), line, false)
      else
        var p := Patch(if s.srcname.Some? then s.srcname.value else "", name.value, [], Ends(0, 0, 0), s.header);
        Next(s.(kept := Open(s.kept, p), srcname := None, header := [],
                f := s.f.(filenames := false, hunkhead := true)), line, true)
  }

  function HunkLine(s: State, line: string): State {
    if !s.f.hunkhead then s
    else
      var head := ParseHead(line);
      if head.None? then
        s.(errors := if s.kept.p.Some? && s.kept.p.value.hunks == [] then s.errors + 1 else s.errors,
           f := s.f.(hunkhead := false, headscan := true))
      else s.(read := Reading(NewHunk(head.value), 0, 0), f := s.f.(hunkhead := false, hunkbody := true))
  }

  function Late(s: State, line: string): State {
    var c := Names(s.(f := Skipped(s.f, line)), line);
    if c.done then c.s else HunkLine(c.s, line)
  }

  function Blocks(s: State, line: string): State {
    var b := Body(s, line);
    if b.done then b.s else Late(b.s, b.line)
  }

  function Act(s: State, line: string): State {
    var a := Scan(s, line);
    if a.done then a.s else Blocks(a.s, line)
  }

  /** One line through the blocks of the main loop. */
  function Step(s: State, line: string): State {
    Act(s.(inHeader := false, f := Decided(s.f, line)), line)
  }

  function Run(s: State, lines: seq<string>): State
    decreases |lines|
  {
    if lines == [] then s else Run(Step(s, lines[0]), lines[1..])
  }

  datatype Result = Result(items: seq<Patch>, errors: nat, warnings: nat, ok: bool)

  /** After the last line. */
  function Finish(s: State): Result {
    var p, f := s.kept.p, s.f;
    var errors := if s.inHeader && p.None? then s.errors + 1 else s.errors;
    var warnings := if s.inHeader && p.Some? then s.warnings + 1 else s.warnings;
    var items := if p.Some? then s.kept.items + [p.value] else s.kept.items;
    if f.hunkparsed || f.hunkskip then Result(items, errors, warnings, errors == 0)
    else if f.headscan then Result(items, errors, warnings, items != [] && errors == 0)
    else Result(items, errors + 1, warnings, false)
  }

  function Parsed(lines: seq<string>): Result { Finish(Run(START, lines)) }

  /** The main loop, with the loop that reads a header inside it. */
  method Parse(lines: seq<string>) returns (r: Result)
    ensures r == Parsed(lines)
  {
    var s, i := START, 0;
    assert lines[0..] == lines;
    hide Blocks; hide ParseHead; hide Finish;
    while i < |lines|
      invariant 0 <= i <= |lines| && Run(s, lines[i..]) == Run(START, lines)
    {
      var line := lines[i];
      RunNext(s, lines, i);
      i := i + 1;
      s := s.(inHeader := false, f := Decided(s.f, line));
      if s.f.headscan {
        var empty := false;
        while !empty && !Starts(line, "--- ")
          invariant 0 < i <= |lines| && s.f.headscan && !s.f.hunkparsed
          invariant !empty ==> line == lines[i - 1] && Run(Act(s, line), lines[i..]) == Run(START, lines)
          invariant empty ==> i == |lines| && s == Run(START, lines)
          decreases |lines| - i, !empty
        {
          s := s.(header := s.header + [line], inHeader := true);
          if i == |lines| {
            empty := true;
          } else {
            line := lines[i];
            RunNext(s, lines, i);
            i := i + 1;
            s := s.(inHeader := false);
          }
        }
        if empty {
          break;
        }
        s := s.(f := s.f.(headscan := false, filenames := true));
      }
      s := Blocks(s, line);
    }
    assert lines[|lines|..] == [];
    r := Finish(s);
  }

  lemma RunNext(s: State, lines: seq<string>, i: nat)
    requires i < |lines|
    ensures Run(s, lines[i..]) == Run(Step(s, lines[i]), lines[i + 1..])
  {
    assert lines[i..][1..] == lines[i + 1..];
  }

  // ----- accepted hunks are complete -----

  function SrcLines(text: seq<string>): nat {
    if text == [] then 0 else
    SrcLines(text[..|text| - 1])
    + (if Starts(text[|text| - 1], "-") || Starts(text[|text| - 1], " ") then 1 else 0)
  }

  function TgtLines(text: seq<string>): nat {
    if text == [] then 0 else
    TgtLines(text[..|text| - 1])
    + (if Starts(text[|text| - 1], "+") || Starts(text[|text| - 1], " ") then 1 else 0)
  }

  predicate Full(h: Hunk, text: seq<string>) { SrcLines(text) == h.linessrc && TgtLines(text) == h.linestgt }

  predicate Marked(text: seq<string>) { forall l :: l in text ==> BodyMark(l) }

  /** No beginning of the text, nor the text itself, has the counts of the header. */
  ghost predicate Unfinished(h: Hunk, text: seq<string>) {
    forall k :: 0 < k <= |text| ==> !Full(h, text[..k])
  }

  /** The body has the line counts of the header, and has them first at its last line. */
  ghost predicate Complete(h: Hunk) {
    && h.text != [] && Marked(h.text) && Full(h, h.text)
    && Unfinished(h, h.text[..|h.text| - 1])
  }

  ghost predicate Sound(hs: seq<Hunk>) { forall h :: h in hs ==> h.invalid || Complete(h) }

  ghost predicate Kept(k: Store) {
    (forall p :: p in k.items ==> Sound(p.hunks)) && (k.p.Some? ==> Sound(k.p.value.hunks))
  }

  /** The counters are those of the hunk being read, which is not yet full. */
  ghost predicate Counting(r: Reading) {
    && !r.hunk.invalid && r.src == SrcLines(r.hunk.text) && r.tgt == TgtLines(r.hunk.text)
    && Marked(r.hunk.text) && Unfinished(r.hunk, r.hunk.text)
  }

  /** What every run keeps: hunks stored without the invalid mark are complete. */
  ghost predicate Inv(s: State) { Kept(s.kept) && (s.f.hunkbody ==> Counting(s.read)) }

  lemma CountsNext(text: seq<string>, l: string)
    requires BodyMark(l)
    ensures SrcLines(text + [l]) == SrcLines(text) + (if l[0] == '-' || l[0] == ' ' then 1 else 0)
    ensures TgtLines(text + [l]) == TgtLines(text) + (if l[0] == '+' || l[0] == ' ' then 1 else 0)
  {
    assert (text + [l])[..|text|] == text;
  }

  lemma UnfinishedNext(h: Hunk, text: seq<string>, l: string)
    requires Unfinished(h, text)
    ensures !Full(h, text + [l]) ==> Unfinished(h, text + [l])
    ensures (text + [l])[..|text|] == text
  {
    var all := text + [l];
    assert all[..|text|] == text && all[..|all|] == all;
    if !Full(h, all) {
      forall k | 0 < k <= |all| ensures !Full(h, all[..k]) {
        if k <= |text| {
          assert all[..k] == text[..k];
        }
      }
    }
  }

  lemma KeptMore(k: Store, h: Hunk)
    requires Kept(k) && (h.invalid || Complete(h))
    ensures Kept(WithHunk(k, h))
  {
    hide Complete;
  }

  lemma KeptSame(k: Store, line: string, p: Patch)
    requires Kept(k)
    ensures Kept(WithEnds(k, line)) && (p.hunks == [] ==> Kept(Open(k, p)))
  {
    hide Complete;
  }

  lemma ReadLine(r: Reading, l: string)
    requires Counting(r) && BodyMark(l)
    ensures var t := Read(r, l);
            && (t.src == t.hunk.linessrc && t.tgt == t.hunk.linestgt ==> Complete(t.hunk))
            && (!(t.src == t.hunk.linessrc && t.tgt == t.hunk.linestgt) ==> Counting(t))
  {
    CountsNext(r.hunk.text, l);
    UnfinishedNext(r.hunk, r.hunk.text, l);
    var h := Read(r, l).hunk;
    hide SrcLines; hide TgtLines;
    assert forall text :: Full(h, text) == Full(r.hunk, text);
  }

  predicate Reached(r: Reading) { r.src == r.hunk.linessrc && r.tgt == r.hunk.linestgt }

  /** Between the two halves of the body block. */
  ghost predicate Taken(s: State) {
    && Kept(s.kept)
    && (s.f.hunkbody ==> if Reached(s.read) then Complete(s.read.hunk) else Counting(s.read))
    && (!s.f.hunkbody ==> s.read.hunk.invalid)
  }

  lemma RejectKeeps(s: State)
    requires Kept(s.kept)
    ensures var t := Reject(s); Kept(t.kept) && !t.f.hunkbody && t.read.hunk.invalid
  {
    hide Kept; hide Complete;
    KeptMore(s.kept, s.read.hunk.(invalid := true));
  }

  lemma TakeKeeps(s: State, l: string)
    requires Kept(s.kept) && s.f.hunkbody && Counting(s.read)
    ensures Taken(Take(s, l))
  {
    hide Kept; hide Counting; hide Complete;
    if BodyMark(l) {
      ReadLine(s.read, l);
      KeptSame(s.kept, l, Patch("", "", [], Ends(0, 0, 0), []));
    } else {
      RejectKeeps(s);
    }
  }

  lemma CheckKeeps(s: State, line: string)
    requires Taken(s)
    ensures Inv(Check(s, line).s)
  {
    hide Kept; hide Counting; hide Complete; hide Mixed;
    RejectKeeps(s);
    hide Reject;
    if Reached(s.read) {
      KeptMore(s.kept, s.read.hunk);
    }
  }

  lemma BodyKeeps(s: State, line: string)
    requires Inv(s)
    ensures Inv(Body(s, line).s)
  {
    hide Kept; hide Counting; hide Take; hide Check; hide Taken; hide Blank;
    if s.f.hunkbody {
      if Blank(line) {
        TakeKeeps(s.(warnings := s.warnings + 1), " " + line);
        CheckKeeps(Take(s.(warnings := s.warnings + 1), " " + line), " " + line);
      } else {
        TakeKeeps(s, line);
        CheckKeeps(Take(s, line), line);
      }
    }
  }

  lemma NamesKeeps(s: State, line: string)
    requires Inv(s)
    ensures Inv(Names(s, line).s)
  {
    hide Kept; hide Counting; hide FileName; hide Open; hide Starts;
    forall p: Patch | p.hunks == [] ensures Kept(Open(s.kept, p)) {
      KeptSame(s.kept, line, p);
    }
  }

  lemma HunkLineKeeps(s: State, line: string)
    requires Inv(s)
    ensures Inv(HunkLine(s, line))
  {
    Fresh(line);
    hide Kept; hide Counting; hide ParseHead; hide NewHunk;
  }

  lemma Fresh(line: string)
    ensures ParseHead(line).Some? ==> Counting(Reading(NewHunk(ParseHead(line).value), 0, 0))
  {
    hide ParseHead;
  }

  lemma SkippedKeeps(s: State, line: string)
    requires Inv(s)
    ensures Inv(s.(f := Skipped(s.f, line)))
  {
    hide Kept; hide Counting; hide ParseHead; hide Starts;
  }

  lemma LateKeeps(s: State, line: string)
    requires Inv(s)
    ensures Inv(Late(s, line))
  {
    hide Inv; hide Names; hide HunkLine; hide Skipped;
    SkippedKeeps(s, line);
    var t := s.(f := Skipped(s.f, line));
    NamesKeeps(t, line);
    HunkLineKeeps(Names(t, line).s, line);
  }

  lemma StepKeeps(s: State, line: string)
    requires Inv(s)
    ensures Inv(Step(s, line))
  {
    hide Kept; hide Counting; hide Body; hide Late; hide ParseHead; hide Starts;
    var a := Scan(s.(inHeader := false, f := Decided(s.f, line)), line);
    BodyKeeps(a.s, line);
    var b := Body(a.s, line);
    LateKeeps(b.s, b.line);
  }

  lemma {:induction false} RunKeeps(s: State, lines: seq<string>)
    requires Inv(s)
    ensures Inv(Run(s, lines))
    decreases |lines|
  {
    hide Inv; hide Step;
    if lines != [] {
      StepKeeps(s, lines[0]);
      RunKeeps(Step(s, lines[0]), lines[1..]);
    }
  }

  /** Whatever is parsed, a hunk kept as valid has the source and target line counts of
      its header, and has them first at its last line. */
  lemma AcceptedComplete(lines: seq<string>)
    ensures forall p, h :: p in Parsed(lines).items && h in p.hunks ==> h.invalid || Complete(h)
  {
    hide Complete;
    RunKeeps(START, lines);
  }

  // ----- printing, and reading back -----

  /** The line that opens a hunk. */
  function HeadLine(h: Hunk): string {
    "@@ -" + (Dec(h.startsrc) + ("," + (Dec(h.linessrc) + (" +" + (Dec(h.starttgt) + ("," + (Dec(h.linestgt) + " @@\n")))))))
  }

  function PrintHunks(hs: seq<Hunk>): seq<string> {
    if hs == [] then [] else [HeadLine(hs[0])] + hs[0].text + PrintHunks(hs[1..])
  }

  /** What splitpatch writes for one file. */
  function PrintPatch(p: Patch): seq<string> {
    [SourceLine(p), TargetLine(p)] + PrintHunks(p.hunks)
  }

  function PrintAll(ps: seq<Patch>): seq<string> {
    if ps == [] then [] else PrintPatch(ps[0]) + PrintAll(ps[1..])
  }

  /** The loops of splitpatch for one file. */
  method PrintFile(p: Patch) returns (out: seq<string>)
    ensures out == PrintPatch(p)
  {
    out := [SourceLine(p)];
    out := out + [TargetLine(p)];
    assert p.hunks[0..] == p.hunks && p.hunks[|p.hunks|..] == [];
    hide HeadLine; hide SourceLine; hide TargetLine;
    for k := 0 to |p.hunks|
      invariant out + PrintHunks(p.hunks[k..]) == PrintPatch(p)
    {
      var h := p.hunks[k];
      assert p.hunks[k..][0] == h && p.hunks[k..][1..] == p.hunks[k + 1..];
      ghost var rest := PrintHunks(p.hunks[k + 1..]);
      assert out + ([HeadLine(h)] + h.text + rest) == out + [HeadLine(h)] + h.text + rest;
      out := out + [HeadLine(h)];
      out := out + h.text;
    }
  }

  lemma RangePrinted(a: nat, b: nat, rest: string)
    requires rest != "" && !Digit(rest[0])
    ensures ParseRange(Dec(a) + ("," + (Dec(b) + rest))) == Some(Range(a, b, rest))
  {
    DecIs(a);
    DecIs(b);
    var t := "," + (Dec(b) + rest);
    DigitsOf(Dec(a), t);
    DigitsOf(Dec(b), rest);
    var s := Dec(a) + t;
    assert s[|Dec(a)|..] == t && s[..|Dec(a)|] == Dec(a);
    assert t[1..] == Dec(b) + rest;
    assert (Dec(b) + rest)[|Dec(b)|..] == rest && (Dec(b) + rest)[..|Dec(b)|] == Dec(b);
  }

  /** The line of a hunk is read as the hunk's ranges. */
  lemma HeadPrinted(h: Hunk)
    ensures ParseHead(HeadLine(h)).Some?
    ensures NewHunk(ParseHead(HeadLine(h)).value)
         == Hunk(h.startsrc, h.linessrc, h.starttgt, h.linestgt, false, "", [])
    ensures HeadLine(h)[0] == '@'
  {
    var end := " @@\n";
    var tgt := Dec(h.starttgt) + ("," + (Dec(h.linestgt) + end));
    var mid := " +" + tgt;
    var src := Dec(h.startsrc) + ("," + (Dec(h.linessrc) + mid));
    RangePrinted(h.startsrc, h.linessrc, mid);
    RangePrinted(h.starttgt, h.linestgt, end);
    hide *;
    HeadLineIs(h);
    Cut(" @@", "\n");
    HeadOf(src, Range(h.startsrc, h.linessrc, mid), tgt, Range(h.starttgt, h.linestgt, end));
    NewHunkIs(Head(Range(h.startsrc, h.linessrc, mid), Range(h.starttgt, h.linestgt, end)));
  }

  lemma HeadLineIs(h: Hunk)
    ensures HeadLine(h)
         == "@@ -" + (Dec(h.startsrc) + ("," + (Dec(h.linessrc)
            + (" +" + (Dec(h.starttgt) + ("," + (Dec(h.linestgt) + " @@\n")))))))
    ensures HeadLine(h)[0] == '@'
  {
    hide Dec;
  }

  lemma HeadOf(src: string, a: Range, tgt: string, b: Range)
    requires ParseRange(src) == Some(a) && a.rest == " +" + tgt && ParseRange(tgt) == Some(b) && Starts(b.rest, " @@")
    ensures ParseHead("@@ -" + src) == Some(Head(a, b))
  {
    hide ParseRange;
    Cut("@@ -", src);
    Cut(" +", tgt);
  }

  lemma NewHunkIs(h: Head)
    requires h.tgt.rest == " @@\n"
    ensures NewHunk(h) == Hunk(h.src.start, h.src.lines, h.tgt.start, h.tgt.lines, false, "", [])
    ensures Starts(" @@\n", " @@")
  {
    Cut(" @@", "\n");
    assert Until("\n", '\n') == "";
  }

  lemma Cut(a: string, b: string)
    ensures (a + b)[|a|..] == b && Starts(a + b, a)
  {}

  /** A patch without the tally of its line ends. */
  function Plain(p: Patch): Patch { p.(ends := Ends(0, 0, 0)) }

  /** The same patches, but for the tally. */
  ghost predicate Like(k: Store, items: seq<Patch>, p: Patch) {
    && k.p.Some? && Plain(k.p.value) == Plain(p) && |k.items| == |items|
    && forall i :: 0 <= i < |items| ==> Plain(k.items[i]) == Plain(items[i])
  }

  lemma MarkNotBlank(l: string)
    requires BodyMark(l)
    ensures !Blank(l)
  {
    assert l[0] in l;
  }

  lemma {:induction false} CountsGrow(text: seq<string>, k: nat)
    requires k <= |text|
    ensures SrcLines(text[..k]) <= SrcLines(text) && TgtLines(text[..k]) <= TgtLines(text)
    decreases |text| - k
  {
    if k == |text| {
      assert text[..k] == text;
    } else {
      CountsGrow(text, k + 1);
      assert text[..k + 1][..k] == text[..k];
    }
  }

  /** Where the reader stands inside a hunk of which k lines have been read. */
  ghost predicate Midway(s: State, h: Hunk, k: nat) {
    && k <= |h.text| && s.f == NOWHERE.(hunkbody := true) && !s.inHeader
    && s.read == Reading(h.(text := h.text[..k]), SrcLines(h.text[..k]), TgtLines(h.text[..k]))
  }

  /** Where it stands after a hunk. */
  ghost predicate Between(s: State, items: seq<Patch>, p: Patch) {
    && !s.inHeader && s.f == NOWHERE.(hunkparsed := true) && Like(s.kept, items, p)
    && s.errors == 0 && s.header == []
  }

  lemma MidwayStep(s: State, h: Hunk, k: nat, items: seq<Patch>, p: Patch)
    requires Complete(h) && !h.invalid && k < |h.text| && Midway(s, h, k)
    requires Like(s.kept, items, p) && s.errors == 0 && s.header == []
    ensures var t := Step(s, h.text[k]);
            && (k + 1 < |h.text| ==> Midway(t, h, k + 1) && Like(t.kept, items, p) && t.errors == 0 && t.header == [])
            && (k + 1 == |h.text| ==> Between(t, items, p.(hunks := p.hunks + [h])))
  {
    var l := h.text[k];
    assert l in h.text && BodyMark(l);
    MarkNotBlank(l);
    CountsGrow(h.text, k + 1);
    assert h.text[..k + 1] == h.text[..k] + [l];
    CountsNext(h.text[..k], l);
    NotFullYet(h, k + 1);
    hide Complete; hide SrcLines; hide TgtLines; hide Blank; hide ParseHead; hide Mixed; hide CountEnd;
    var f := NOWHERE.(hunkbody := true);
    assert Decided(f, l) == f;
    var t := Take(s, l);
    assert t.read == Reading(h.(text := h.text[..k + 1]), SrcLines(h.text[..k + 1]), TgtLines(h.text[..k + 1]));
    assert h.text[..|h.text|] == h.text;
  }

  lemma NotFullYet(h: Hunk, k: nat)
    requires Complete(h) && 0 < k <= |h.text|
    ensures (SrcLines(h.text[..k]) == h.linessrc && TgtLines(h.text[..k]) == h.linestgt) <==> k == |h.text|
    ensures SrcLines(h.text) == h.linessrc && TgtLines(h.text) == h.linestgt
  {
    if k < |h.text| {
      assert h.text[..|h.text| - 1][..k] == h.text[..k];
      assert !Full(h, h.text[..|h.text| - 1][..k]);
    } else {
      assert h.text[..k] == h.text;
    }
  }

  lemma {:induction false} FeedBody(s: State, h: Hunk, k: nat, items: seq<Patch>, p: Patch)
    requires Complete(h) && !h.invalid && k < |h.text| && Midway(s, h, k)
    requires Like(s.kept, items, p) && s.errors == 0 && s.header == []
    ensures Between(Run(s, h.text[k..]), items, p.(hunks := p.hunks + [h]))
    decreases |h.text| - k
  {
    MidwayStep(s, h, k, items, p);
    RunNext(s, h.text, k);
    hide Complete; hide Midway; hide Like; hide Step; hide Between;
    if k + 1 < |h.text| {
      FeedBody(Step(s, h.text[k]), h, k + 1, items, p);
    } else {
      assert h.text[k + 1..] == [];
    }
  }

  /** A name that survives printing: no tab, no newline, no space around it. */
  predicate NameLike(s: string) { '\t' !in s && '\n' !in s && Trim(s + "\n") == s }

  lemma {:induction false} UntilNone(s: string, c: char)
    requires c !in s
    ensures Until(s, c) == s
  {
    if s != "" {
      UntilNone(s[1..], c);
    }
  }

  lemma NamePrinted(mark: string, name: string)
    requires |mark| == 4 && NameLike(name)
    ensures FileName(mark + (name + "\n")) == Some(name)
  {
    Cut(mark, name + "\n");
    UntilNone(name + "\n", '\t');
    assert (mark + (name + "\n"))[4] == (name + "\n")[0];
  }

  /** Ready for the first hunk of a patch. */
  ghost predicate Opened(s: State, items: seq<Patch>, p: Patch) {
    s.f == NOWHERE.(hunkhead := true) && Like(s.kept, items, p) && s.errors == 0 && s.header == []
  }

  /** In the middle of the two lines that name the files. */
  ghost predicate Named(s: State, kept: Store, source: string) {
    && s.f == NOWHERE.(filenames := true) && s.kept == kept && s.srcname == Some(source)
    && s.errors == 0 && s.header == []
  }

  function SourceLine(p: Patch): string { "--- " + (p.source + "\n") }

  function TargetLine(p: Patch): string { "+++ " + (p.target + "\n") }

  lemma SourceRead(s: State, p: Patch)
    requires NameLike(p.source) && s.errors == 0 && s.header == []
    requires s.f == NOWHERE.(hunkparsed := true) || s.f == NOWHERE.(headscan := true)
    ensures Named(Step(s, SourceLine(p)), s.kept, p.source)
  {
    NamePrinted("--- ", p.source);
    Cut("--- ", p.source + "\n");
    hide FileName; hide NameLike;
    var l := SourceLine(p);
    assert l[0] == '-' && !Starts(l, "@@ -");
    assert ParseHead(l).None?;
    hide ParseHead;
  }

  lemma TargetRead(s: State, kept: Store, p: Patch)
    requires NameLike(p.target) && Named(s, kept, p.source)
    ensures var t := Step(s, TargetLine(p));
            && t.f == NOWHERE.(hunkhead := true) && t.errors == 0 && t.header == []
            && t.kept == Open(kept, Patch(p.source, p.target, [], Ends(0, 0, 0), []))
  {
    NamePrinted("+++ ", p.target);
    Cut("+++ ", p.target + "\n");
    hide FileName; hide NameLike; hide ParseHead;
    var l := TargetLine(p);
    assert l[0] == '+' && !Starts(l, "--- ");
  }

  /** The hunk as it is read back: splitpatch drops the description. */
  function Bare(h: Hunk): Hunk { h.(desc := "") }

  lemma HeadRead(s: State, h: Hunk)
    requires !h.invalid && (s.f == NOWHERE.(hunkhead := true) || s.f == NOWHERE.(hunkparsed := true))
    ensures var t := Step(s, HeadLine(h));
            && Midway(t, Bare(h), 0) && t.kept == s.kept && t.errors == s.errors && t.header == s.header
  {
    HeadPrinted(h);
    hide ParseHead; hide NewHunk; hide HeadLine;
    assert Bare(h).text[..0] == [];
  }

  /** What the parser accepts, and splitpatch can print: named files, and complete hunks. */
  ghost predicate Printable(p: Patch) {
    && NameLike(p.source) && NameLike(p.target) && p.hunks != []
    && forall h :: h in p.hunks ==> !h.invalid && Complete(h)
  }

  function BareAll(hs: seq<Hunk>): seq<Hunk> {
    if hs == [] then [] else [Bare(hs[0])] + BareAll(hs[1..])
  }

  lemma {:induction false} RunCat(s: State, a: seq<string>, b: seq<string>)
    ensures Run(s, a + b) == Run(Run(s, a), b)
    decreases |a|
  {
    hide Step;
    if a == [] {
      assert a + b == b;
    } else {
      assert (a + b)[1..] == a[1..] + b;
      RunCat(Step(s, a[0]), a[1..], b);
    }
  }

  lemma RunOne(s: State, l: string)
    ensures Run(s, [l]) == Step(s, l)
  {
    hide Step;
    assert [l][1..] == [];
    assert Run(Step(s, l), []) == Step(s, l);
  }

  lemma HunkRead(s: State, h: Hunk, items: seq<Patch>, p: Patch)
    requires !h.invalid && Complete(h) && (Opened(s, items, p) || Between(s, items, p))
    ensures Between(Run(s, [HeadLine(h)] + h.text), items, p.(hunks := p.hunks + [Bare(h)]))
  {
    HeadRead(s, h);
    RunCat(s, [HeadLine(h)], h.text);
    RunOne(s, HeadLine(h));
    assert h.text[0..] == h.text && Bare(h).text == h.text;
    BareComplete(h);
    hide Complete; hide Midway; hide Step; hide Like; hide HeadLine;
    FeedBody(Step(s, HeadLine(h)), Bare(h), 0, items, p);
  }

  lemma BareComplete(h: Hunk)
    ensures Complete(h) == Complete(Bare(h))
  {
    assert forall t :: Full(h, t) == Full(Bare(h), t);
  }

  lemma {:induction false} HunksRead(s: State, hs: seq<Hunk>, items: seq<Patch>, p: Patch)
    requires forall h :: h in hs ==> !h.invalid && Complete(h)
    requires Between(s, items, p) || (Opened(s, items, p) && hs != [])
    ensures Between(Run(s, PrintHunks(hs)), items, p.(hunks := p.hunks + BareAll(hs)))
    decreases |hs|
  {
    hide *;
    PrintHunksStep(hs, p);
    if hs == [] {
      assert p.hunks + [] == p.hunks;
    } else {
      var h, rest := hs[0], hs[1..];
      assert h in hs && forall x :: x in rest ==> x in hs;
      HunkRead(s, h, items, p);
      var lines := [HeadLine(h)] + h.text;
      RunCat(s, lines, PrintHunks(rest));
      var q := p.(hunks := p.hunks + [Bare(h)]);
      HunksRead(Run(s, lines), rest, items, q);
      assert p.hunks + [Bare(h)] + BareAll(rest) == p.hunks + ([Bare(h)] + BareAll(rest));
    }
  }

  lemma PrintHunksStep(hs: seq<Hunk>, p: Patch)
    ensures hs == [] ==> PrintHunks(hs) == [] && BareAll(hs) == [] && forall s :: Run(s, []) == s
    ensures hs != [] ==>
      && PrintHunks(hs) == ([HeadLine(hs[0])] + hs[0].text) + PrintHunks(hs[1..])
      && BareAll(hs) == [Bare(hs[0])] + BareAll(hs[1..])
  {
    hide HeadLine; hide Bare;
  }

  /** The patch as it is read back. */
  function ReadBack(p: Patch): Patch {
    Patch(p.source, p.target, BareAll(p.hunks), Ends(0, 0, 0), [])
  }

  function ReadBackAll(ps: seq<Patch>): seq<Patch> {
    if ps == [] then [] else [ReadBack(ps[0])] + ReadBackAll(ps[1..])
  }

  /** The patches stored, with the one being put together. */
  function Stored(k: Store): seq<Patch> { if k.p.Some? then k.items + [k.p.value] else k.items }

  ghost predicate AllLike(a: seq<Patch>, b: seq<Patch>) {
    |a| == |b| && forall i :: 0 <= i < |a| ==> Plain(a[i]) == Plain(b[i])
  }

  lemma OpenLike(k: Store, items: seq<Patch>, p: Patch)
    requires AllLike(Stored(k), items)
    ensures Like(Open(k, p), items, p)
  {}

  lemma LikeStored(k: Store, items: seq<Patch>, p: Patch)
    requires Like(k, items, p)
    ensures AllLike(Stored(k), items + [p])
  {}

  lemma PatchRead(s: State, p: Patch, items: seq<Patch>)
    requires Printable(p) && s.errors == 0 && s.header == [] && AllLike(Stored(s.kept), items)
    requires s.f == NOWHERE.(hunkparsed := true) || s.f == NOWHERE.(headscan := true)
    ensures var t := Run(s, PrintPatch(p));
            && t.f == NOWHERE.(hunkparsed := true) && !t.inHeader && t.errors == 0 && t.header == []
            && AllLike(Stored(t.kept), items + [ReadBack(p)])
  {
    hide *;
    var q := Patch(p.source, p.target, [], Ends(0, 0, 0), []);
    PrintableIs(p);
    SourceRead(s, p);
    var s1 := Step(s, SourceLine(p));
    TargetRead(s1, s.kept, p);
    var s2 := Step(s1, TargetLine(p));
    OpenLike(s.kept, items, q);
    OpenedIs(s2, items, q);
    HunksRead(s2, p.hunks, items, q);
    var t := Run(s2, PrintHunks(p.hunks));
    assert [] + BareAll(p.hunks) == BareAll(p.hunks);
    BetweenIs(t, items, ReadBack(p));
    ReadBackIs(p);
    LikeStored(t.kept, items, ReadBack(p));
    RunCat(s, [SourceLine(p)], [TargetLine(p)] + PrintHunks(p.hunks));
    RunOne(s, SourceLine(p));
    RunCat(s1, [TargetLine(p)], PrintHunks(p.hunks));
    RunOne(s1, TargetLine(p));
  }

  lemma PrintableIs(p: Patch)
    requires Printable(p)
    ensures NameLike(p.source) && NameLike(p.target) && p.hunks != []
    ensures forall h :: h in p.hunks ==> !h.invalid && Complete(h)
    ensures PrintPatch(p) == [SourceLine(p)] + ([TargetLine(p)] + PrintHunks(p.hunks))
  {
    hide SourceLine; hide TargetLine; hide PrintHunks; hide Complete; hide NameLike;
  }

  lemma OpenedIs(s: State, items: seq<Patch>, p: Patch)
    requires s.f == NOWHERE.(hunkhead := true) && Like(s.kept, items, p) && s.errors == 0 && s.header == []
    ensures Opened(s, items, p)
  {}

  lemma BetweenIs(s: State, items: seq<Patch>, p: Patch)
    ensures Between(s, items, p) ==>
      !s.inHeader && s.f == NOWHERE.(hunkparsed := true) && Like(s.kept, items, p) && s.errors == 0 && s.header == []
  {}

  lemma ReadBackIs(p: Patch)
    ensures ReadBack(p) == Patch(p.source, p.target, [], Ends(0, 0, 0), []).(hunks := BareAll(p.hunks))
  {}

  lemma {:induction false} PatchesRead(s: State, ps: seq<Patch>, items: seq<Patch>)
    requires (forall p :: p in ps ==> Printable(p)) && s.errors == 0 && s.header == [] && AllLike(Stored(s.kept), items)
    requires s.f == NOWHERE.(hunkparsed := true) || s.f == NOWHERE.(headscan := true)
    ensures var t := Run(s, PrintAll(ps));
            && (ps != [] || (s.f.hunkparsed && !s.inHeader) ==> t.f == NOWHERE.(hunkparsed := true) && !t.inHeader)
            && t.errors == 0 && AllLike(Stored(t.kept), items + ReadBackAll(ps))
    decreases |ps|
  {
    hide Printable; hide AllLike; hide PrintPatch; hide ReadBack; hide Step; hide Stored;
    if ps == [] {
      assert items + [] == items;
    } else {
      assert ps[0] in ps && forall p :: p in ps[1..] ==> p in ps;
      PatchRead(s, ps[0], items);
      RunCat(s, PrintPatch(ps[0]), PrintAll(ps[1..]));
      PatchesRead(Run(s, PrintPatch(ps[0])), ps[1..], items + [ReadBack(ps[0])]);
      assert items + [ReadBack(ps[0])] + ReadBackAll(ps[1..]) == items + ([ReadBack(ps[0])] + ReadBackAll(ps[1..]));
    }
  }

  /** Parsing what splitpatch prints: no error, and the same files with the same ranges
      and text. */
  lemma ParseUndoesPrint(ps: seq<Patch>)
    requires ps != [] && forall p :: p in ps ==> Printable(p)
    ensures var r := Parsed(PrintAll(ps)); r.ok && r.errors == 0 && AllLike(r.items, ReadBackAll(ps))
  {
    hide Printable; hide Run; hide PrintAll; hide ReadBackAll;
    PatchesRead(START, ps, []);
    assert [] + ReadBackAll(ps) == ReadBackAll(ps);
  }

  // ----- from the written text -----

  predicate UnbrokenLines(lines: seq<string>) { forall l :: l in lines ==> TextLines.Unbroken(l) }

  ghost predicate UnbrokenText(p: Patch) { forall h :: h in p.hunks ==> UnbrokenLines(h.text) }

  lemma HeadUnbroken(h: Hunk)
    ensures TextLines.IsLine(HeadLine(h))
  {
    DecIs(h.startsrc);
    DecIs(h.linessrc);
    DecIs(h.starttgt);
    DecIs(h.linestgt);
    hide Dec;
    var body := "@@ -" + Dec(h.startsrc) + "," + Dec(h.linessrc) + " +" + Dec(h.starttgt) + "," + Dec(h.linestgt) + " @@";
    assert HeadLine(h) == body + "\n";
    assert '\n' !in body;
  }

  lemma NameUnbroken(mark: string, name: string)
    requires '\n' !in name && '\n' !in mark
    ensures TextLines.IsLine(mark + (name + "\n"))
  {
    var l := mark + (name + "\n");
    assert l[..|l| - 1] == mark + name;
  }

  lemma {:induction false} HunksUnbroken(hs: seq<Hunk>)
    requires forall h :: h in hs ==> UnbrokenLines(h.text)
    ensures UnbrokenLines(PrintHunks(hs))
  {
    hide HeadLine;
    if hs != [] {
      assert hs[0] in hs && forall h :: h in hs[1..] ==> h in hs;
      HeadUnbroken(hs[0]);
      HunksUnbroken(hs[1..]);
    }
  }

  lemma {:induction false} PrintedUnbroken(ps: seq<Patch>)
    requires forall p :: p in ps ==> Printable(p) && UnbrokenText(p)
    ensures UnbrokenLines(PrintAll(ps))
  {
    hide PrintHunks; hide Complete;
    if ps != [] {
      assert ps[0] in ps && forall p :: p in ps[1..] ==> p in ps;
      NameUnbroken("--- ", ps[0].source);
      NameUnbroken("+++ ", ps[0].target);
      HunksUnbroken(ps[0].hunks);
      PrintedUnbroken(ps[1..]);
    }
  }

  /** The same from the text that was written: split into lines again, of which only the
      last may lack its newline, it gives the same files. */
  lemma ParseUndoesWrite(ps: seq<Patch>)
    requires ps != [] && forall p :: p in ps ==> Printable(p) && UnbrokenText(p)
    requires forall i :: 0 <= i < |PrintAll(ps)| - 1 ==> Ending(PrintAll(ps)[i], "\n")
    ensures var r := Parsed(TextLines.Lines(TextLines.Concat(PrintAll(ps))));
            r.ok && r.errors == 0 && AllLike(r.items, ReadBackAll(ps))
  {
    PrintedUnbroken(ps);
    hide Printable; hide Run; hide PrintAll; hide ReadBackAll; hide Parsed;
    var lines := PrintAll(ps);
    forall i | 0 <= i < |lines| ensures TextLines.Unbroken(lines[i]) && (i < |lines| - 1 ==> TextLines.IsLine(lines[i])) {
      assert lines[i] in lines;
    }
    TextLines.LinesOfConcat(lines);
    ParseUndoesPrint(ps);
  }
}
