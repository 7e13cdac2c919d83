/** What lines and files of a configuration come to, by what they spell. */
module ConfFacts {
  import opened Wrappers
  import opened Exprs
  import opened Escape
  import opened TextLines
  import opened Conf
  import Comparisons

  // ----- quoted strings -----

  /** t spells v between quotes: a backslash may stand before any character, and must
      stand before a quote or a backslash. */
  predicate Spelling(t: string, v: string) {
    if v == "" then t == ""
    else if t != "" && t[0] == '\\' then |t| > 1 && t[1] == v[0] && Spelling(t[2..], v[1..])
    else t != "" && t[0] != '"' && t[0] == v[0] && Spelling(t[1..], v[1..])
  }

  lemma {:induction false} SpellingRead(t: string, v: string, after: string)
    requires Spelling(t, v)
    ensures Unquote(t + "\"" + after) == Some(v)
  {
    if v == "" {
      assert t + "\"" + after == "\"" + after;
    } else {
      var k := if t[0] == '\\' then 2 else 1;
      SpellingRead(t[k..], v[1..], after);
      assert (t + "\"" + after)[k..] == t[k..] + "\"" + after;
      assert [v[0]] + v[1..] == v;
    }
  }

  lemma {:induction false} ReadSpelling(s: string) returns (k: nat)
    requires Unquote(s).Some?
    ensures k < |s| && s[k] == '"' && Spelling(s[..k], Unquote(s).value)
    decreases |s|
  {
    if s[0] == '"' {
      k := 0;
    } else {
      var n := if s[0] == '\\' then 2 else 1;
      var j := ReadSpelling(s[n..]);
      k := n + j;
      assert s[..k][n..] == s[n..][..j];
      assert Unquote(s).value[1..] == Unquote(s[n..]).value;
    }
  }

  /** The string read is the one spelled before a closing quote, and there is none exactly
      if nothing is. */
  lemma UnquoteExactly(s: string, v: string)
    ensures Unquote(s) == Some(v) <==> exists k :: 0 <= k < |s| && s[k] == '"' && Spelling(s[..k], v)
  {
    if Unquote(s) == Some(v) {
      var k := ReadSpelling(s);
      assert s[k] == '"' && Spelling(s[..k], v);
    }
    hide Unquote; hide Spelling;
    forall k | 0 <= k < |s| && s[k] == '"' && Spelling(s[..k], v) ensures Unquote(s) == Some(v) {
      SpellingRead(s[..k], v, s[k + 1..]);
      AroundQuote(s, k);
    }
  }

  lemma AroundQuote(s: string, k: nat)
    requires k < |s| && s[k] == '"'
    ensures s[..k] + "\"" + s[k + 1..] == s
  {
  }

  /** What is printed is the spelling without a needless backslash. */
  lemma {:induction false} BodySpells(s: string)
    ensures Spelling(Body(s), s)
    ensures forall t :: Spelling(t, s) ==> |Body(s)| <= |t|
  {
    if s != "" {
      BodySpells(s[1..]);
      var head := if Special(s[0]) then ['\\', s[0]] else [s[0]];
      assert Body(s)[|head|..] == Body(s[1..]);
      forall t | Spelling(t, s) ensures |Body(s)| <= |t| {
        var k := if t[0] == '\\' then 2 else 1;
        assert Spelling(t[k..], s[1..]);
      }
    }
  }

  // ----- numbers -----

  ghost predicate Decimal(s: string) { exists n: nat :: s == Comparisons.Written(n, 10) }

  lemma {:induction false} NumberOf(s: string) returns (n: nat)
    requires s != "" && Conf.AllDigits(s) && (s[0] == '0' ==> |s| == 1)
    ensures s == Comparisons.Written(n, 10)
    decreases |s|
  {
    assert s[|s| - 1] in s;
    var d := (s[|s| - 1] as int - '0' as int) as nat;
    assert Comparisons.Digit(d) == s[|s| - 1];
    if |s| == 1 {
      n := d;
      assert s == [s[0]];
    } else {
      var front := s[..|s| - 1];
      assert forall c :: c in front ==> c in s;
      var m := NumberOf(front);
      Comparisons.WrittenRead(m, 10);
      assert m > 0;
      n := m * 10 + d;
      assert n / 10 == m && n % 10 == d;
      assert s == front + [s[|s| - 1]];
    }
  }

  lemma {:induction false} WrittenDigits(n: nat)
    ensures Conf.AllDigits(Comparisons.Written(n, 10))
  {
    if n >= 10 {
      WrittenDigits(n / 10);
    }
  }

  lemma DecimalExactly(s: string)
    ensures Decimal(s) <==> s != "" && Conf.AllDigits(s) && (s[0] == '0' ==> |s| == 1)
  {
    if Decimal(s) {
      var n: nat :| s == Comparisons.Written(n, 10);
      Comparisons.WrittenRead(n, 10);
      WrittenDigits(n);
    }
    if s != "" && Conf.AllDigits(s) && (s[0] == '0' ==> |s| == 1) {
      var n := NumberOf(s);
    }
  }

  /** An integer is accepted exactly if it is the shortest numeral of a number, or a minus
      sign and one. */
  lemma IntExactly(s: string)
    ensures IntValid(s) <==> Decimal(s) || exists t :: s == "-" + t && Decimal(t)
  {
    DecimalExactly(s);
    if s != "" {
      DecimalExactly(s[1..]);
    }
    hide Decimal;
    if s != "" && s[0] == '-' {
      assert s == "-" + s[1..];
      assert s[0] in s && !Decimal(s);
    }
    forall t | s == "-" + t && Decimal(t) ensures IntValid(s) {
      assert s[1..] == t;
    }
  }

  const HEX_DIGITS := "0123456789abcdefABCDEF"

  predicate Hexadecimal(s: string) { s != "" && forall c :: c in s ==> c in HEX_DIGITS }

  /** A hexadecimal number is accepted with 0x or 0X before it and without. */
  lemma HexExactly(s: string)
    ensures HexValid(s) <==> Hexadecimal(s) || exists t :: (s == "0x" + t || s == "0X" + t) && Hexadecimal(t)
  {
    forall c: char ensures HexDigit(c) <==> c in HEX_DIGITS {
      HexDigits(c);
    }
    hide HexDigit;
    if |s| >= 2 && s[0] == '0' && (s[1] == 'x' || s[1] == 'X') {
      assert s[1] in s && s[1] !in HEX_DIGITS;
      assert s == "0x" + s[2..] || s == "0X" + s[2..];
    }
    forall t | (s == "0x" + t || s == "0X" + t) && Hexadecimal(t) ensures HexValid(s) {
      assert s[2..] == t;
    }
  }

  lemma HexDigits(c: char)
    ensures HexDigit(c) <==> c in HEX_DIGITS
  {
    if HexDigit(c) {
      var i := if '0' <= c <= '9' then c as int - '0' as int
               else if 'a' <= c <= 'f' then c as int - 'a' as int + 10
               else c as int - 'A' as int + 16;
      assert HEX_DIGITS[i] == c;
    }
  }

  // ----- one line -----

  /** The value text of a line that is not cut short. */
  predicate OneLine(p: string) { '\n' !in p && (p == "" || p[|p| - 1] != '\r') }

  function Stored(st: Store, name: string, p: string): Store { ReadLine(st, PREFIX + name + "=" + p + "\n") }

  /** The comment of an unset symbol stores n for a bool or tristate, and nothing for a
      symbol of another type. */
  lemma UnsetLine(st: Store, name: string)
    requires NameLike(name) && Known(st, name)
    ensures var e, after := st.syms[name], ReadLine(st, "# " + PREFIX + name + " is not set\n");
            if e.typ == Boolean || e.typ == Tristate
            then after.syms == st.syms[name := Entry(e.typ, true, NO, e.val, e.choice)]
            else after.syms == st.syms
  {
    ReadUnset(st, name);
    hide ReadLine; hide Elect;
  }

  /** A bool or tristate looks at the first character only. */
  lemma TristateLine(st: Store, name: string, p: string)
    requires NameLike(name) && Known(st, name) && OneLine(p)
    requires st.syms[name].typ == Boolean || st.syms[name].typ == Tristate
    ensures var e := st.syms[name];
            var t := if p == "" then None
                     else if p[0] == 'y' then Some(YES)
                     else if p[0] == 'n' then Some(NO)
                     else if p[0] == 'm' && e.typ == Tristate then Some(MOD)
                     else None;
            if t.None? then Stored(st, name, p) == st
            else Stored(st, name, p).syms == st.syms[name := Entry(e.typ, true, t.value, e.val, e.choice)]
  {
    ReadSet(st, name, p);
    hide ReadLine; hide Elect;
  }

  /** An int or hex symbol stores the text if it is a number of its type. */
  lemma NumberLine(st: Store, name: string, p: string)
    requires NameLike(name) && Known(st, name) && OneLine(p)
    requires st.syms[name].typ == Int || st.syms[name].typ == Hex
    ensures var e := st.syms[name];
            if e.typ == Int && !(Decimal(p) || exists t :: p == "-" + t && Decimal(t)) then Stored(st, name, p) == st
            else if e.typ == Hex && !(Hexadecimal(p) || exists t :: (p == "0x" + t || p == "0X" + t) && Hexadecimal(t))
            then Stored(st, name, p) == st
            else Stored(st, name, p).syms == st.syms[name := Entry(e.typ, true, e.tri, Some(p), e.choice)]
  {
    ReadSet(st, name, p);
    IntExactly(p);
    HexExactly(p);
    hide Hexadecimal; hide ReadLine; hide Elect; hide IntValid; hide HexValid; hide Decimal;
  }

  /** p starts with v in quotes. */
  ghost predicate Quotes(p: string, v: string) {
    p != "" && p[0] == '"' && exists k :: 0 <= k < |p[1..]| && p[1..][k] == '"' && Spelling(p[1..][..k], v)
  }

  /** A string symbol stores what the text spells in quotes; if it spells nothing the line
      is refused, or passed over for want of an opening quote. */
  lemma StringLine(st: Store, name: string, p: string)
    requires NameLike(name) && Known(st, name) && OneLine(p) && st.syms[name].typ == Str
    ensures var e := st.syms[name];
            && (forall v :: Quotes(p, v) ==>
                  Stored(st, name, p).syms == st.syms[name := Entry(Str, true, e.tri, Some(v), e.choice)])
            && ((forall v :: !Quotes(p, v)) ==> Stored(st, name, p).syms == st.syms)
  {
    ReadSet(st, name, p);
    forall v ensures Quotes(p, v) <==> p != "" && p[0] == '"' && Unquote(p[1..]) == Some(v) {
      QuotesExactly(p, v);
    }
    hide ReadLine; hide Elect; hide Unquote; hide Quotes; hide NameLike;
  }

  lemma QuotesExactly(p: string, v: string)
    ensures Quotes(p, v) <==> p != "" && p[0] == '"' && Unquote(p[1..]) == Some(v)
  {
    if p != "" {
      UnquoteExactly(p[1..], v);
    }
    hide Unquote; hide Spelling;
  }

  // ----- what is printed -----

  /** A symbol that is n is printed as a comment, a string in quotes, all others as they
      are; symbols of the other types are not printed. */
  lemma PrintedLine(name: string, typ: SymType, v: string)
    requires Printable(typ, v) || typ == Other || typ == Unknown
    ensures typ == Other || typ == Unknown ==> Line(name, typ, v) == None
    ensures typ == Str ==> exists t :: Spelling(t, v) && Line(name, typ, v) == Some("CONFIG_" + name + "=\"" + t + "\"\n")
    ensures typ == Int || typ == Hex ==> Line(name, typ, v) == Some("CONFIG_" + name + "=" + v + "\n")
    ensures typ == Boolean || typ == Tristate ==>
              Line(name, typ, v) == Some(if v == "n" then "# CONFIG_" + name + " is not set\n"
                                         else "CONFIG_" + name + "=" + v + "\n")
  {
    hide Spelling; hide Body; hide Quoted; hide IntValid; hide HexValid;
    if typ == Str {
      BodySpells(v);
      QuotedLine(name, v);
      assert Spelling(Body(v), v) && Line(name, typ, v) == Some("CONFIG_" + name + "=\"" + Body(v) + "\"\n");
    } else if typ == Boolean || typ == Tristate {
      UnsetText(name);
      assert v == "n" <==> v[0] == 'n';
    }
  }

  lemma UnsetText(name: string)
    ensures "# " + PREFIX + name + " is not set\n" == "# CONFIG_" + name + " is not set\n"
  {
    assert "# " + PREFIX == "# CONFIG_";
  }

  lemma QuotedLine(name: string, v: string)
    ensures PREFIX + name + "=" + Quoted(v) + "\n" == "CONFIG_" + name + "=\"" + Body(v) + "\"\n"
  {
    hide Body;
    var head := "CONFIG_" + name + "=";
    assert head + "\"" == "CONFIG_" + name + "=\"";
    assert head + ("\"" + Body(v) + "\"") + "\n" == head + "\"" + Body(v) + "\"\n";
  }

  /** Both ways to write n are read alike. */
  lemma UnsetIsNo(st: Store, name: string)
    requires NameLike(name) && Known(st, name) && (st.syms[name].typ == Boolean || st.syms[name].typ == Tristate)
    ensures ReadLine(st, "# " + PREFIX + name + " is not set\n") == Stored(st, name, "n")
  {
    ReadUnset(st, name);
    ReadSet(st, name, "n");
    hide ReadLine; hide Elect;
  }

  /** A title is a comment of its own between empty comments, after an empty line. */
  lemma PrintedTitle(t: string)
    ensures Concat(Print(Title(t))) == "\n#\n# " + t + "\n#\n"
  {
    var rule, text := "#\n", "# " + t + "\n";
    ConcatFirst("\n", [rule, text, rule]);
    ConcatFirst(rule, [text, rule]);
    ConcatFirst(text, [rule]);
    ConcatFirst(rule, []);
    hide Concat;
    assert Print(Title(t)) == ["\n"] + [rule, text, rule];
    assert [rule, text, rule] == [rule] + [text, rule] && [text, rule] == [text] + [rule] && [rule] == [rule] + [];
    assert "\n" + (rule + (text + (rule + ""))) == "\n#\n# " + t + "\n#\n";
  }

  lemma ConcatFirst(l: string, rest: seq<string>)
    ensures Concat([l] + rest) == l + Concat(rest) && Concat([]) == ""
  {
    assert ([l] + rest)[1..] == rest;
  }

  // ----- choices -----

  /** What one output says of a choice: nothing, or the value of one of its members. */
  datatype Ballot = Ballot(name: string, vote: Option<Tri>)

  function BallotOf(st: Store, o: Output, c: nat): Ballot {
    if o.Setting? && o.name in st.syms && st.syms[o.name].choice == Some(c) then
      Ballot(o.name, Some(if o.value == "y" then YES else if o.value == "m" then MOD else NO))
    else Ballot("", None)
  }

  function Ballots(st: Store, os: seq<Output>, c: nat): seq<Ballot> {
    seq(|os|, i requires 0 <= i < |os| => BallotOf(st, os[i], c))
  }

  predicate VoteAt(bs: seq<Ballot>, i: nat, t: Tri) { i < |bs| && bs[i].vote == Some(t) }

  ghost predicate Voted(bs: seq<Ballot>, t: Tri) { exists i: nat :: VoteAt(bs, i, t) }

  ghost predicate LastAt(bs: seq<Ballot>, i: nat, t: Tri) {
    VoteAt(bs, i, t) && forall j: nat :: i < j ==> !VoteAt(bs, j, t)
  }

  ghost predicate Follows(bs: seq<Ballot>, t: Tri, u: Tri) {
    exists i: nat, j: nat :: i < j && VoteAt(bs, i, t) && VoteAt(bs, j, u)
  }

  /** What voting makes of a choice: its value is the largest, its pick the last member at
      y, and it has no user mark once m was seen after y. */
  ghost predicate Counted(bs: seq<Ballot>, from: ChoiceEntry, to: ChoiceEntry) {
    && to.tri == (if from.tri == YES || Voted(bs, YES) then YES
                  else if from.tri == MOD || Voted(bs, MOD) then MOD
                  else NO)
    && (!Voted(bs, YES) ==> to.pick == from.pick)
    && (forall i: nat :: LastAt(bs, i, YES) ==> to.pick == Some(bs[i].name))
    && (to.has <==> from.has && !(from.tri == YES && Voted(bs, MOD)) && !Follows(bs, YES, MOD))
  }

  function Count1(ce: ChoiceEntry, b: Ballot): ChoiceEntry {
    if b.vote.None? then ce else Elect(ce, b.name, b.vote.value)
  }

  lemma VotedStep(bs: seq<Ballot>, t: Tri)
    requires bs != []
    ensures Voted(bs, t) <==> bs[0].vote == Some(t) || Voted(bs[1..], t)
  {
    if Voted(bs, t) {
      var i: nat :| VoteAt(bs, i, t);
      if i > 0 { assert VoteAt(bs[1..], i - 1, t); }
    }
    if bs[0].vote == Some(t) {
      assert VoteAt(bs, 0, t);
    }
    if Voted(bs[1..], t) {
      var i: nat :| VoteAt(bs[1..], i, t);
      assert VoteAt(bs, i + 1, t);
    }
  }

  lemma FollowsStep(bs: seq<Ballot>, t: Tri, u: Tri)
    requires bs != []
    ensures Follows(bs, t, u) <==> (bs[0].vote == Some(t) && Voted(bs[1..], u)) || Follows(bs[1..], t, u)
  {
    if Follows(bs, t, u) {
      var i: nat, j: nat :| i < j && VoteAt(bs, i, t) && VoteAt(bs, j, u);
      assert VoteAt(bs[1..], j - 1, u);
      if i > 0 { assert VoteAt(bs[1..], i - 1, t); }
    }
    if bs[0].vote == Some(t) && Voted(bs[1..], u) {
      var j: nat :| VoteAt(bs[1..], j, u);
      assert VoteAt(bs, 0, t) && VoteAt(bs, j + 1, u);
    }
    if Follows(bs[1..], t, u) {
      var i: nat, j: nat :| i < j && VoteAt(bs[1..], i, t) && VoteAt(bs[1..], j, u);
      assert VoteAt(bs, i + 1, t) && VoteAt(bs, j + 1, u);
    }
  }

  lemma LastStep(bs: seq<Ballot>, i: nat, t: Tri)
    requires bs != [] && LastAt(bs, i, t)
    ensures i > 0 ==> LastAt(bs[1..], i - 1, t)
    ensures i == 0 ==> bs[0].vote == Some(t) && !Voted(bs[1..], t)
  {
    if i > 0 {
      assert VoteAt(bs[1..], i - 1, t);
    }
    forall j: nat | i < j + 1 ensures !VoteAt(bs[1..], j, t) {
      assert !VoteAt(bs, j + 1, t);
    }
  }

  lemma CountedStep(bs: seq<Ballot>, from: ChoiceEntry, to: ChoiceEntry)
    requires bs != [] && Counted(bs[1..], Count1(from, bs[0]), to)
    ensures Counted(bs, from, to)
  {
    VotedStep(bs, YES);
    VotedStep(bs, MOD);
    FollowsStep(bs, YES, MOD);
    forall i: nat | LastAt(bs, i, YES) ensures to.pick == Some(bs[i].name) {
      LastStep(bs, i, YES);
      hide LastAt; hide VoteAt;
    }
    hide Voted; hide Follows; hide LastAt; hide VoteAt;
  }

  lemma NothingCounted(ce: ChoiceEntry)
    ensures Counted([], ce, ce)
  {
  }

  /** Members of choices are bools or tristates. */
  predicate TristateMembers(st: Store, os: seq<Output>, c: nat) {
    forall o :: o in os && BallotOf(st, o, c).vote.Some? ==> o.typ == Boolean || o.typ == Tristate
  }

  lemma BallotCounts(st: Store, o: Output, c: nat)
    requires GoodOutput(st, o) && c in st.choices
    requires BallotOf(st, o, c).vote.Some? ==> o.typ == Boolean || o.typ == Tristate
    ensures c in Apply(st, o).choices && Apply(st, o).choices[c] == Count1(st.choices[c], BallotOf(st, o, c))
    ensures forall p :: BallotOf(Apply(st, o), p, c) == BallotOf(st, p, c)
  {
    ApplyEffect(st, o, c);
    hide Apply; hide Elect; hide NameLike; hide LooksUnset;
  }

  lemma {:induction false} VotesCounted(st: Store, os: seq<Output>, c: nat)
    requires (forall o :: o in os ==> GoodOutput(st, o)) && TristateMembers(st, os, c) && c in st.choices
    ensures c in ApplyAll(st, os).choices && Counted(Ballots(st, os, c), st.choices[c], ApplyAll(st, os).choices[c])
    decreases |os|
  {
    if os == [] {
      NothingCounted(st.choices[c]);
      assert Ballots(st, os, c) == [];
    } else {
      AllStillGood(st, os);
      assert os[0] in os;
      assert forall o :: o in os[1..] ==> o in os;
      BallotCounts(st, os[0], c);
      var st1, bs := Apply(st, os[0]), Ballots(st, os, c);
      hide Apply; hide GoodOutput; hide BallotOf; hide Count1; hide Counted;
      VotesCounted(st1, os[1..], c);
      assert bs[1..] == Ballots(st1, os[1..], c);
      assert bs[0] == BallotOf(st, os[0], c);
      CountedStep(bs, st.choices[c], ApplyAll(st, os).choices[c]);
    }
  }

  /** What reading a written file back makes of a choice, whatever its members hold. */
  lemma ChoiceVoted(st: Store, os: seq<Output>, c: nat)
    requires (forall o :: o in os ==> GoodOutput(st, o)) && TristateMembers(st, os, c) && c in st.choices
    ensures var back := ReadAll(Reset(st), Lines(Concat(PrintAll(os))));
            c in back.choices && Counted(Ballots(st, os, c), ChoiceEntry(true, NO, None), back.choices[c])
  {
    var start := Reset(st);
    forall o | o in os ensures GoodOutput(start, o) {
      assert GoodOutput(st, o);
    }
    assert forall o :: BallotOf(start, o, c) == BallotOf(st, o, c);
    assert Ballots(start, os, c) == Ballots(st, os, c);
    hide ReadLine; hide ReadAll; hide PrintAll; hide GoodOutput; hide ApplyAll; hide Counted; hide BallotOf; hide Ballots;
    ReadAllPrinted(start, os);
    PrintedSplits(st, os);
    hide Lines; hide Concat;
    VotesCounted(start, os, c);
  }
}
