/** Which files are taken for patched, line by line. */
module PatchPlaces {
  import opened PatchTypes
  import opened PatchApply

  /** How many of the first j lines are kept or added ones. */
  function Held(text: seq<string>, j: nat): (n: nat)
    requires j <= |text|
    ensures n <= j
  {
    if j == 0 then 0 else (if Marked(text[0], '-') then 0 else 1) + Held(text[1..], j - 1)
  }

  /** If line j of the hunk is kept or added, the file has it where the target number says:
      that many lines further on as kept and added lines precede it. */
  predicate Stands(file: seq<string>, start: nat, text: seq<string>, j: nat)
    requires j < |text|
  {
    !Marked(text[j], '-') ==>
      start + Held(text, j) < |file| && RStrip(file[start + Held(text, j)]) == RStrip(Tail(text[j]))
  }

  ghost predicate AllStand(file: seq<string>, start: nat, text: seq<string>) {
    forall j: nat :: j < |text| ==> Stands(file, start, text, j)
  }

  lemma StandsNext(file: seq<string>, start: nat, text: seq<string>)
    requires text != []
    ensures var next := start + if Marked(text[0], '-') then 0 else 1;
            AllStand(file, start, text) <==> Stands(file, start, text, 0) && AllStand(file, next, text[1..])
  {
    hide RStrip; hide Marked;
    var next := start + if Marked(text[0], '-') then 0 else 1;
    forall j: nat | j < |text[1..]| ensures Stands(file, start, text, j + 1) <==> Stands(file, next, text[1..], j) {
      assert text[j + 1] == text[1..][j] && Held(text, j + 1) == next - start + Held(text[1..], j);
    }
    hide Stands; hide Held;
    if Stands(file, start, text, 0) && AllStand(file, next, text[1..]) {
      forall j: nat | j < |text| ensures Stands(file, start, text, j) {
        if j > 0 {
          assert Stands(file, next, text[1..], j - 1);
        }
      }
    }
    if AllStand(file, start, text) {
      forall j: nat | j < |text[1..]| ensures Stands(file, next, text[1..], j) {
        assert Stands(file, start, text, j + 1);
      }
    }
  }

  lemma {:induction false} LinesStand(file: seq<string>, start: nat, text: seq<string>)
    requires start <= |file|
    ensures HasLines(file, start, Expected(text)) <==> AllStand(file, start, text)
    ensures |Expected(text)| == Held(text, |text|)
    decreases |text|
  {
    hide RStrip; hide Marked; hide AllStand; hide HasLines;
    if text == [] {
      NoneStand(file, start);
    } else {
      StandsNext(file, start, text);
      var rest := text[1..];
      if Marked(text[0], '-') {
        LinesStand(file, start, rest);
        assert Expected(text) == Expected(rest) && Stands(file, start, text, 0);
      } else {
        HasNext(file, start, Tail(text[0]), Expected(rest));
        if start < |file| {
          LinesStand(file, start + 1, rest);
        } else {
          HeldCounts(rest);
        }
      }
    }
  }

  lemma NoneStand(file: seq<string>, start: nat)
    requires start <= |file|
    ensures HasLines(file, start, []) && AllStand(file, start, [])
  {
  }

  lemma {:induction false} HeldCounts(text: seq<string>)
    ensures |Expected(text)| == Held(text, |text|)
  {
    hide Marked;
    if text != [] {
      HeldCounts(text[1..]);
    }
  }

  /** The target ranges follow each other, each with a line at least. */
  predicate InOrder(pos: nat, hunks: seq<Hunk>)
    decreases |hunks|
  {
    hunks == [] ||
    var h := hunks[0];
    pos < h.starttgt && Held(h.text, |h.text|) > 0 && InOrder(h.starttgt - 1 + Held(h.text, |h.text|), hunks[1..])
  }

  lemma OneRecognised(file: seq<string>, pos: nat, h: Hunk)
    requires pos < h.starttgt && Held(h.text, |h.text|) > 0
    ensures var q, want := Sought(pos, h), Expected(h.text);
            && q == h.starttgt - 1 && want != [] && |want| == Held(h.text, |h.text|)
            && ((q == pos || q <= |file|) && HasLines(file, q, want) <==> AllStand(file, q, h.text))
  {
    HeldCounts(h.text);
    if h.starttgt - 1 <= |file| {
      LinesStand(file, h.starttgt - 1, h.text);
    } else {
      FirstHeld(h.text);
    }
    hide Expected; hide Held; hide RStrip; hide Marked;
  }

  lemma {:induction false} FirstHeld(text: seq<string>)
    requires Held(text, |text|) > 0
    ensures forall file: seq<string>, start: nat :: start > |file| ==> !AllStand(file, start, text)
  {
    var j := HeldAt(text);
    forall file: seq<string>, start: nat | start > |file| ensures !AllStand(file, start, text) {
      assert !Stands(file, start, text, j);
    }
  }

  lemma {:induction false} HeldAt(text: seq<string>) returns (j: nat)
    requires Held(text, |text|) > 0
    ensures j < |text| && !Marked(text[j], '-')
  {
    hide Marked;
    if !Marked(text[0], '-') {
      j := 0;
    } else {
      var i := HeldAt(text[1..]);
      j := i + 1;
    }
  }

  /** A file is taken for patched if and only if every kept and added line of every hunk
      stands in it where the hunk's target number says, line ends aside. */
  lemma {:induction false} RecognisedExactly(file: seq<string>, pos: nat, hunks: seq<Hunk>)
    requires InOrder(pos, hunks)
    ensures Recognised(file, pos, hunks)
            <==> forall h :: h in hunks ==> h.starttgt > 0 && AllStand(file, h.starttgt - 1, h.text)
    decreases |hunks|
  {
    RecognisedStep(file, pos, hunks);
    hide Recognised; hide AllStand; hide HasLines; hide Expected; hide Held;
    if hunks != [] {
      var h, rest := hunks[0], hunks[1..];
      OneRecognised(file, pos, h);
      RecognisedExactly(file, h.starttgt - 1 + |Expected(h.text)|, rest);
      assert hunks == [h] + rest;
    }
  }
}
