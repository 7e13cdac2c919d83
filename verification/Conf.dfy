/** The configuration file, line by line: how a symbol's value is printed, what a line
    means to the reader, and that reading undoes printing. */
module Conf {
  import opened Wrappers
  import opened Exprs
  import opened Escape
  import opened TextLines

  /** The user value of a symbol as the reader keeps it, and the choice it belongs to. */
  datatype Entry = Entry(typ: SymType, has: bool, tri: Tri, val: Option<string>, choice: Option<nat>)

  datatype ChoiceEntry = ChoiceEntry(has: bool, tri: Tri, pick: Option<string>)

  datatype Store = Store(syms: map<string, Entry>, choices: map<nat, ChoiceEntry>)

  const PREFIX := "CONFIG_"
  const UNSET := "is not set"

  // ----- strings -----

  function Starts(s: string, t: string): bool { |t| <= |s| && s[..|t|] == t }

  // ----- sym_string_valid -----

  predicate Digit(c: char) { '0' <= c <= '9' }

  predicate HexDigit(c: char) { Digit(c) || 'a' <= c <= 'f' || 'A' <= c <= 'F' }

  predicate AllDigits(s: string) { forall c :: c in s ==> Digit(c) }

  predicate AllHex(s: string) { forall c :: c in s ==> HexDigit(c) }

  /** An optional sign and digits, the first of them 0 only if it is the last. */
  predicate IntValid(s: string) {
    var t := if s != "" && s[0] == '-' then s[1..] else s;
    t != "" && AllDigits(t) && (t[0] == '0' ==> |t| == 1)
  }

  predicate HexValid(s: string) {
    var t := if |s| >= 2 && s[0] == '0' && (s[1] == 'x' || s[1] == 'X') then s[2..] else s;
    t != "" && AllHex(t)
  }

  predicate StringValid(typ: SymType, s: string) {
    match typ
    case Str => true
    case Int => IntValid(s)
    case Hex => HexValid(s)
    case Boolean => s != "" && s[0] in "yYmMnN"
    case Tristate => s != "" && s[0] in "yYmMnN"
    case _ => false
  }

  // ----- reading one line -----

  /** conf_set_sym_val: the entry after the text p was offered as its value, and whether
      the text was refused. */
  datatype SetResult = SetResult(entry: Entry, bad: bool)

  function SetChecked(e: Entry, p: string): SetResult {
    if StringValid(e.typ, p) then SetResult(e.(val := Some(p), has := true), false) else SetResult(e, true)
  }

  function SetQuoted(e: Entry, p: string): SetResult {
    if p == "" || p[0] != '"' then SetResult(e, false)
    else match Unquote(p[1..])
      case None => SetResult(e, true)
      case Some(v) => SetChecked(e, v)
  }

  function SetValue(e: Entry, p: string): SetResult {
    match e.typ
    case Tristate =>
      if p != "" && p[0] == 'm' then SetResult(e.(tri := MOD, has := true), false)
      else SetBool(e, p)
    case Boolean => SetBool(e, p)
    case Other =>
      if p == "" || p[0] != '"' then SetChecked(e.(typ := Str), p) else SetQuoted(e, p)
    case Str => SetQuoted(e, p)
    case Int => SetChecked(e, p)
    case Hex => SetChecked(e, p)
    case Unknown => SetResult(e, false)
  }

  function SetBool(e: Entry, p: string): SetResult {
    if p != "" && p[0] == 'y' then SetResult(e.(tri := YES, has := true), false)
    else if p != "" && p[0] == 'n' then SetResult(e.(tri := NO, has := true), false)
    else SetResult(e, true)
  }

  /** What a value of a member does to its choice. */
  function Elect(c: ChoiceEntry, name: string, t: Tri): ChoiceEntry {
    var d := if t == MOD && c.tri == YES then c.(has := false)
             else if t == YES then c.(pick := Some(name))
             else c;
    d.(tri := TriMax(d.tri, t))
  }

  function Put(st: Store, name: string, e: Entry): Store {
    var st1 := st.(syms := st.syms[name := e]);
    if e.choice.Some? && e.choice.value in st.choices then
      st1.(choices := st.choices[e.choice.value := Elect(st.choices[e.choice.value], name, e.tri)])
    else st1
  }

  /** sym_find finds the constants under the names y, m and n; the store holds the others. */
  predicate Known(st: Store, name: string) { name in st.syms && name != "y" && name != "m" && name != "n" }

  function SetUnset(st: Store, name: string): Store {
    if !Known(st, name) then st
    else
      var e := st.syms[name];
      Put(st, name, if e.typ == Boolean || e.typ == Tristate then e.(tri := NO, has := true) else e)
  }

  function SetTo(st: Store, name: string, p: string): Store {
    if !Known(st, name) then st
    else
      var r := SetValue(st.syms[name], p);
      if r.bad then st else Put(st, name, r.entry)
  }

  /** The value text of a line, without the newline and a carriage return before it. */
  function Chomp(p: string): string {
    var n := Find(p, '\n');
    if n == |p| then p
    else if n > 0 && p[n - 1] == '\r' then p[..n - 1]
    else p[..n]
  }

  /** One pass of the loop of conf_read_simple. */
  function ReadLine(st: Store, line: string): Store {
    if line != "" && line[0] == '#' then
      if |line| < 2 || !Starts(line[2..], PREFIX) then st
      else
        var rest := line[2 + |PREFIX|..];
        var n := Find(rest, ' ');
        if n == |rest| || !Starts(rest[n + 1..], UNSET) then st else SetUnset(st, rest[..n])
    else if Starts(line, PREFIX) then
      var rest := line[|PREFIX|..];
      var n := Find(rest, '=');
      if n == |rest| then st else SetTo(st, rest[..n], Chomp(rest[n + 1..]))
    else st
  }

  function ReadAll(st: Store, lines: seq<string>): Store
    decreases |lines|
  {
    if lines == [] then st else ReadAll(ReadLine(st, lines[0]), lines[1..])
  }

  // ----- printing one symbol -----

  /** conf_write_symbol with kconfig_print_symbol: the line for a symbol with a value, if
      its type has one. */
  function Line(name: string, typ: SymType, value: string): Option<string> {
    match typ
    case Other => None
    case Unknown => None
    case Str => Some(PREFIX + name + "=" + Quoted(value) + "\n")
    case _ =>
      if (typ == Boolean || typ == Tristate) && value != "" && value[0] == 'n'
      then Some("# " + PREFIX + name + " is not set\n")
      else Some(PREFIX + name + "=" + value + "\n")
  }

  /** What sym_get_string_value can return for a symbol. */
  predicate Printable(typ: SymType, v: string) {
    match typ
    case Boolean => v == "n" || v == "y"
    case Tristate => v == "n" || v == "m" || v == "y"
    case Int => IntValid(v)
    case Hex => HexValid(v)
    case Str => '\n' !in v && '\0' !in v
    case _ => false
  }

  predicate NameLike(name: string) {
    '=' !in name && ' ' !in name && '\n' !in name && '\0' !in name
  }

  /** The entry that holds a value. */
  function Holding(e: Entry, v: string): Entry {
    match e.typ
    case Boolean => e.(has := true, tri := if v == "y" then YES else NO)
    case Tristate => e.(has := true, tri := if v == "y" then YES else if v == "m" then MOD else NO)
    case _ => e.(has := true, val := Some(v))
  }

  // ----- reading undoes printing -----

  lemma ReadUnset(st: Store, name: string)
    requires NameLike(name)
    ensures ReadLine(st, "# " + PREFIX + name + " is not set\n") == SetUnset(st, name)
  {
    var line := "# " + PREFIX + name + " is not set\n";
    var rest := name + [' '] + (UNSET + "\n");
    assert line == "# " + PREFIX + rest;
    assert line[2..] == PREFIX + rest;
    assert line[2 + |PREFIX|..] == rest;
    FindAfter(name, ' ', UNSET + "\n");
    assert rest[|name| + 1..] == UNSET + "\n";
    assert rest[..|name|] == name;
  }

  lemma ReadSet(st: Store, name: string, p: string)
    requires NameLike(name) && '\n' !in p && (p == "" || p[|p| - 1] != '\r')
    ensures ReadLine(st, PREFIX + name + "=" + p + "\n") == SetTo(st, name, p)
  {
    var line := PREFIX + name + "=" + p + "\n";
    var rest := name + ['='] + (p + "\n");
    assert line[0] == 'C' && Starts(line, PREFIX);
    After(PREFIX, rest, line);
    FindAfter(name, '=', p + "\n");
    assert rest[|name| + 1..] == p + "\n" && rest[..|name|] == name;
    ChompLine(p);
    hide SetTo; hide Chomp; hide Find;
  }

  lemma After(s: string, t: string, line: string)
    requires line == s + t
    ensures line[|s|..] == t
  {}

  lemma ChompLine(p: string)
    requires '\n' !in p && (p == "" || p[|p| - 1] != '\r')
    ensures Chomp(p + "\n") == p
  {
    FindAfter(p, '\n', "");
    assert p + ['\n'] + "" == p + "\n";
    assert (p + "\n")[..|p|] == p;
  }

  lemma PlainText(typ: SymType, v: string)
    requires Printable(typ, v) && typ != Str
    ensures v != "" && '\n' !in v && v[|v| - 1] != '\r'
  {
    match typ
    case Int =>
      var t := if v != "" && v[0] == '-' then v[1..] else v;
      assert v == t || v == ['-'] + t;
      assert forall c :: c in v ==> c == '-' || c in t;
      assert v[|v| - 1] in v;
    case Hex =>
      var t := if |v| >= 2 && v[0] == '0' && (v[1] == 'x' || v[1] == 'X') then v[2..] else v;
      assert v == t || v == [v[0], v[1]] + t;
      assert forall c :: c in v ==> c in ['0', 'x', 'X'] || c in t;
      assert v[|v| - 1] in v;
    case _ =>
  }

  /** Reading the line printed for a symbol stores the value it was printed with. */
  lemma LineRoundTrip(st: Store, name: string, v: string)
    requires NameLike(name) && Known(st, name) && Printable(st.syms[name].typ, v)
    ensures Line(name, st.syms[name].typ, v).Some?
    ensures ReadLine(st, Line(name, st.syms[name].typ, v).value) == Put(st, name, Holding(st.syms[name], v))
  {
    var e := st.syms[name];
    hide ReadLine;
    if e.typ == Str {
      BodyPlain(v, '\n');
      var q := Quoted(v);
      ReadSet(st, name, q);
      UnquoteUndoesQuoting(v, "");
      assert q[1..] == Body(v) + "\"" + "";
    } else {
      PlainText(e.typ, v);
      if (e.typ == Boolean || e.typ == Tristate) && v[0] == 'n' {
        ReadUnset(st, name);
      } else {
        ReadSet(st, name, v);
      }
    }
  }

  /** The symbol a comment would unset: its text is CONFIG_, a name, a space, and words
      that begin with "is not set". */
  function CommentName(text: string): Option<string> {
    if !Starts(text, PREFIX) then None
    else
      var rest := text[|PREFIX|..];
      var n := Find(rest, ' ');
      if n == |rest| || !Starts(rest[n + 1..], UNSET) then None else Some(rest[..n])
  }

  predicate LooksUnset(text: string) {
    var name := CommentName(text);
    name.Some? && name.value !in ["y", "m", "n"]
  }

  lemma StartsLine(s: string, t: string)
    requires t == PREFIX || t == UNSET
    ensures Starts(s + "\n", t) == Starts(s, t)
    ensures Starts(s, t) ==> (s + "\n")[|t|..] == s[|t|..] + "\n"
  {
    if |s| < |t| {
      assert '\n' !in t;
      if |t| <= |s + "\n"| { assert (s + "\n")[..|t|][|s|] == '\n'; }
    } else {
      assert (s + "\n")[..|t|] == s[..|t|];
    }
  }

  lemma FindLine(s: string)
    ensures Find(s, ' ') < |s| ==> Find(s + "\n", ' ') == Find(s, ' ')
    ensures Find(s, ' ') == |s| ==> Find(s + "\n", ' ') == |s + "\n"|
  {
    var n := Find(s, ' ');
    if n < |s| {
      FindAfter(s[..n], ' ', s[n + 1..] + "\n");
      assert s[..n] + [' '] + (s[n + 1..] + "\n") == s + "\n";
    } else {
      assert s[..n] == s;
      assert ' ' !in s + "\n";
    }
  }

  lemma CommentRead(st: Store, text: string)
    ensures ReadLine(st, "# " + text + "\n")
         == var name := CommentName(text); if name.None? then st else SetUnset(st, name.value)
  {
    var line := "# " + text + "\n";
    assert line == "# " + (text + "\n");
    After("# ", text + "\n", line);
    StartsLine(text, PREFIX);
    if Starts(text, PREFIX) {
      var rest := text[|PREFIX|..];
      assert line[2 + |PREFIX|..] == line[2..][|PREFIX|..];
      FindLine(rest);
      var n := Find(rest, ' ');
      hide Find; hide SetUnset;
      if n < |rest| {
        assert (rest + "\n")[n + 1..] == rest[n + 1..] + "\n" && (rest + "\n")[..n] == rest[..n];
        StartsLine(rest[n + 1..], UNSET);
      }
    }
  }

  /** A comment is passed over whatever is stored, exactly when it does not look like an
      unset symbol. */
  lemma CommentIgnored(text: string)
    ensures (forall st :: ReadLine(st, "# " + text + "\n") == st) <==> !LooksUnset(text)
  {
    hide ReadLine;
    if LooksUnset(text) {
      var name := CommentName(text).value;
      var st := Store(map[name := Entry(Boolean, false, NO, None, None)], map[]);
      CommentRead(st, text);
      hide CommentName;
      assert SetUnset(st, name).syms[name].has;
    } else {
      forall st ensures ReadLine(st, "# " + text + "\n") == st {
        CommentRead(st, text);
      }
    }
  }

  /** The menu title "CONFIG_A is not set" unsets the symbol A when it is read back. */
  lemma TitleReadAsSetting()
    ensures var text, st := "CONFIG_A is not set", Store(map["A" := Entry(Boolean, true, YES, None, None)], map[]);
            && LooksUnset(text)
            && ReadLine(st, "# " + text + "\n") == Store(map["A" := Entry(Boolean, true, NO, None, None)], map[])
  {
    var text, st := "CONFIG_A is not set", Store(map["A" := Entry(Boolean, true, YES, None, None)], map[]);
    var rest := "A" + [' '] + UNSET;
    assert text == PREFIX + rest;
    assert text[|PREFIX|..] == rest && rest[2..] == UNSET && rest[..1] == "A";
    FindAfter("A", ' ', UNSET);
    assert CommentName(text) == Some("A");
    CommentRead(st, text);
    hide ReadLine; hide CommentName;
    assert SetUnset(st, "A") == Put(st, "A", Entry(Boolean, true, NO, None, None));
    assert st.syms["A" := Entry(Boolean, true, NO, None, None)] == map["A" := Entry(Boolean, true, NO, None, None)];
  }

  // ----- whole files -----

  /** What conf_write puts out for one menu node: a heading, or the line of a symbol. */
  datatype Output = Title(text: string) | Setting(name: string, typ: SymType, value: string)

  function Print(o: Output): seq<string> {
    match o
    case Title(t) => ["\n", "#\n", "# " + t + "\n", "#\n"]
    case Setting(name, typ, v) => var l := Line(name, typ, v); if l.None? then [] else [l.value]
  }

  function PrintAll(os: seq<Output>): seq<string> {
    if os == [] then [] else Print(os[0]) + PrintAll(os[1..])
  }

  /** The state in which reading starts: no symbol has a user value, every choice has. */
  function Reset(st: Store): Store {
    Store(map n | n in st.syms :: st.syms[n].(has := false, tri := NO, val := None),
          map c | c in st.choices :: ChoiceEntry(true, NO, None))
  }

  predicate GoodOutput(st: Store, o: Output) {
    match o
    case Title(t) => '\n' !in t && !LooksUnset(t)
    case Setting(name, typ, v) =>
      NameLike(name) && Known(st, name) && st.syms[name].typ == typ && Printable(typ, v)
  }

  /** Each symbol at most once. */
  predicate Distinct(os: seq<Output>) {
    forall i, j :: 0 <= i < j < |os| && os[i].Setting? && os[j].Setting? ==> os[i].name != os[j].name
  }

  function Apply(st: Store, o: Output): Store
    requires GoodOutput(st, o)
  {
    match o
    case Title(_) => st
    case Setting(name, _, v) => Put(st, name, Holding(st.syms[name], v))
  }

  lemma {:induction false} ReadAllCat(st: Store, a: seq<string>, b: seq<string>)
    ensures ReadAll(st, a + b) == ReadAll(ReadAll(st, a), b)
    decreases |a|
  {
    hide ReadLine;
    if a == [] {
      assert a + b == b;
    } else {
      assert (a + b)[1..] == a[1..] + b;
      ReadAllCat(ReadLine(st, a[0]), a[1..], b);
    }
  }

  lemma ReadTwo(st: Store, a: string, b: string)
    ensures ReadAll(st, [a, b]) == ReadLine(ReadLine(st, a), b)
    ensures ReadAll(st, [a]) == ReadLine(st, a)
  {
    hide ReadLine;
    assert [a, b][1..] == [b] && [b][1..] == [] && [a][1..] == [];
    assert ReadAll(ReadLine(st, a), [b]) == ReadAll(ReadLine(ReadLine(st, a), b), []);
  }

  /** Reading what is printed for one output has the effect of that output. */
  lemma ReadPrinted(st: Store, o: Output)
    requires GoodOutput(st, o)
    ensures ReadAll(st, Print(o)) == Apply(st, o)
  {
    match o
    case Title(t) =>
      assert ReadLine(st, "\n") == st && ReadLine(st, "#\n") == st;
      CommentIgnored(t);
      hide ReadLine;
      ReadTwo(st, "\n", "#\n");
      ReadTwo(st, "# " + t + "\n", "#\n");
      ReadAllCat(st, ["\n", "#\n"], ["# " + t + "\n", "#\n"]);
      assert Print(o) == ["\n", "#\n"] + ["# " + t + "\n", "#\n"];
    case Setting(name, typ, v) =>
      LineRoundTrip(st, name, v);
      hide ReadLine; hide Line;
      ReadTwo(st, Line(name, typ, v).value, "");
  }

  lemma AllStillGood(st: Store, os: seq<Output>)
    requires os != [] && forall o :: o in os ==> GoodOutput(st, o)
    ensures forall o :: o in os[1..] ==> GoodOutput(Apply(st, os[0]), o)
  {
    forall o | o in os[1..] ensures GoodOutput(Apply(st, os[0]), o) {
      assert o in os;
    }
  }

  function ApplyAll(st: Store, os: seq<Output>): Store
    requires forall o :: o in os ==> GoodOutput(st, o)
    decreases |os|
  {
    if os == [] then st
    else
      var st1 := Apply(st, os[0]);
      AllStillGood(st, os);
      ApplyAll(st1, os[1..])
  }

  lemma {:induction false} ReadAllPrinted(st: Store, os: seq<Output>)
    requires forall o :: o in os ==> GoodOutput(st, o)
    ensures ReadAll(st, PrintAll(os)) == ApplyAll(st, os)
    decreases |os|
  {
    if os != [] {
      ReadPrinted(st, os[0]);
      ReadAllCat(st, Print(os[0]), PrintAll(os[1..]));
      var st1 := Apply(st, os[0]);
      AllStillGood(st, os);
      hide ReadLine; hide Apply; hide Print; hide GoodOutput;
      ReadAllPrinted(st1, os[1..]);
    }
  }

  lemma {:induction false} ApplyAllHolds(st: Store, os: seq<Output>, name: string)
    requires forall o :: o in os ==> GoodOutput(st, o)
    requires Distinct(os) && name in st.syms
    ensures name in ApplyAll(st, os).syms
    ensures forall o :: o in os && o.Setting? && o.name == name ==>
      ApplyAll(st, os).syms[name] == Holding(st.syms[name], o.value)
    ensures (forall o :: o in os && o.Setting? ==> o.name != name) ==> ApplyAll(st, os).syms[name] == st.syms[name]
    decreases |os|
  {
    hide Printable; hide NameLike; hide LooksUnset;
    if os != [] {
      var st1, rest := Apply(st, os[0]), os[1..];
      AllStillGood(st, os);
      assert os == [os[0]] + rest;
      ApplyAllHolds(st1, rest, name);
      if os[0].Setting? && os[0].name == name {
        forall o | o in rest && o.Setting? ensures o.name != name {
          var j :| 0 <= j < |rest| && rest[j] == o;
          assert os[j + 1] == o;
        }
      }
    }
  }

  lemma SettingIsLine(name: string, typ: SymType, v: string)
    requires NameLike(name) && Printable(typ, v)
    ensures Line(name, typ, v).Some? && IsLine(Line(name, typ, v).value)
  {
    var l := Line(name, typ, v).value;
    if typ == Str {
      BodyPlain(v, '\n');
      assert l[..|l| - 1] == PREFIX + name + "=" + Quoted(v);
    } else {
      PlainText(typ, v);
      if (typ == Boolean || typ == Tristate) && v[0] == 'n' {
        assert l[..|l| - 1] == "# " + PREFIX + name + " is not set";
      } else {
        assert l[..|l| - 1] == PREFIX + name + "=" + v;
      }
    }
  }

  lemma {:induction false} PrintedAreLines(st: Store, os: seq<Output>)
    requires forall o :: o in os ==> GoodOutput(st, o)
    ensures forall l :: l in PrintAll(os) ==> IsLine(l)
  {
    if os != [] {
      assert os[0] in os && forall o :: o in os[1..] ==> o in os;
      PrintedAreLines(st, os[1..]);
      match os[0]
      case Title(t) =>
        var l := "# " + t + "\n";
        assert l[..|l| - 1] == "# " + t;
      case Setting(name, typ, v) =>
        SettingIsLine(name, typ, v);
    }
  }

  /** The printed file is read as the lines that were printed. */
  lemma PrintedSplits(st: Store, os: seq<Output>)
    requires forall o :: o in os ==> GoodOutput(st, o)
    ensures Lines(Concat(PrintAll(os))) == PrintAll(os)
  {
    hide PrintAll; hide Lines; hide Concat; hide GoodOutput;
    PrintedAreLines(st, os);
    AllLines(PrintAll(os));
    LinesOfConcat(PrintAll(os));
  }

  /** The round trip of a file: reading what was written stores exactly the values that
      were written, as user values, and no other symbol has one. */
  lemma FileRoundTrip(st: Store, os: seq<Output>, name: string)
    requires forall o :: o in os ==> GoodOutput(st, o)
    requires Distinct(os) && name in st.syms
    ensures var back := ReadAll(Reset(st), Lines(Concat(PrintAll(os))));
            && name in back.syms
            && (forall o :: o in os && o.Setting? && o.name == name ==>
                  back.syms[name] == Holding(Reset(st).syms[name], o.value))
            && ((forall o :: o in os && o.Setting? ==> o.name != name) ==>
                  back.syms[name] == Entry(st.syms[name].typ, false, NO, None, st.syms[name].choice))
  {
    forall o | o in os ensures GoodOutput(Reset(st), o) {
      assert GoodOutput(st, o);
    }
    hide ReadLine; hide ReadAll; hide PrintAll; hide GoodOutput; hide Distinct; hide Holding; hide ApplyAll;
    ReadAllPrinted(Reset(st), os);
    PrintedSplits(st, os);
    ApplyAllHolds(Reset(st), os, name);
  }

  // ----- choices -----

  /** The values written for the members of a choice: y for one of them, n for the others. */
  predicate Elects(st: Store, os: seq<Output>, c: nat, winner: Option<string>) {
    && (forall o :: o in os && o.Setting? && o.name in st.syms && st.syms[o.name].choice == Some(c) ==>
          (o.typ == Boolean || o.typ == Tristate) && o.value == if winner == Some(o.name) then "y" else "n")
    && (winner.Some? ==> exists o :: o in os && o.Setting? && o.name == winner.value && o.name in st.syms
                                  && st.syms[o.name].choice == Some(c))
  }

  lemma {:induction false} NoMoreVotes(st: Store, os: seq<Output>, c: nat)
    requires (forall o :: o in os ==> GoodOutput(st, o)) && Elects(st, os, c, None) && c in st.choices
    ensures c in ApplyAll(st, os).choices && ApplyAll(st, os).choices[c] == st.choices[c]
    decreases |os|
  {
    if os != [] {
      AllStillGood(st, os);
      assert os[0] in os;
      assert forall o :: o in os[1..] ==> o in os;
      NoMoreVotes(Apply(st, os[0]), os[1..], c);
    }
  }

  /** An output leaves names and links alone, and its choice learns of its value. */
  lemma ApplyEffect(st: Store, o: Output, c: nat)
    requires GoodOutput(st, o) && c in st.choices
    ensures var st1 := Apply(st, o);
            && (forall n :: n in st1.syms <==> n in st.syms)
            && (forall n :: n in st.syms ==> st1.syms[n].choice == st.syms[n].choice)
            && c in st1.choices
            && st1.choices[c] == if o.Setting? && st.syms[o.name].choice == Some(c)
                                 then Elect(st.choices[c], o.name, Holding(st.syms[o.name], o.value).tri) else st.choices[c]
  {
    hide Printable; hide NameLike; hide LooksUnset; hide Elect;
  }

  lemma Loses(st: Store, os: seq<Output>, c: nat, winner: string)
    requires os != [] && GoodOutput(st, os[0]) && c in st.choices && st.choices[c] == ChoiceEntry(true, NO, None)
    requires Elects(st, os, c, Some(winner)) && !(os[0].Setting? && os[0].name == winner)
    ensures var st1 := Apply(st, os[0]);
            Elects(st1, os[1..], c, Some(winner)) && c in st1.choices && st1.choices[c] == st.choices[c]
  {
    hide Printable; hide NameLike; hide LooksUnset; hide Apply;
    ApplyEffect(st, os[0], c);
    assert os == [os[0]] + os[1..] && os[0] in os;
    assert forall o :: o in os[1..] ==> o in os;
    var o :| o in os && o.Setting? && o.name == winner && o.name in st.syms && st.syms[o.name].choice == Some(c);
    assert o in os[1..];
  }

  lemma Wins(st: Store, os: seq<Output>, c: nat, winner: string)
    requires os != [] && GoodOutput(st, os[0]) && c in st.choices && st.choices[c] == ChoiceEntry(true, NO, None)
    requires Elects(st, os, c, Some(winner)) && os[0].Setting? && os[0].name == winner
    requires forall o :: o in os[1..] && o.Setting? ==> o.name != winner
    ensures var st1 := Apply(st, os[0]);
            Elects(st1, os[1..], c, None) && c in st1.choices && st1.choices[c] == ChoiceEntry(true, YES, Some(winner))
  {
    hide Printable; hide NameLike; hide LooksUnset; hide Apply;
    ApplyEffect(st, os[0], c);
    assert os[0] in os;
    assert forall o :: o in os[1..] ==> o in os;
  }

  /** The settings of a choice of which one member is y elect that member, whatever
      their order. */
  lemma {:induction false} ChoiceElected(st: Store, os: seq<Output>, c: nat, winner: string)
    requires (forall o :: o in os ==> GoodOutput(st, o)) && Distinct(os)
    requires c in st.choices && st.choices[c] == ChoiceEntry(true, NO, None) && Elects(st, os, c, Some(winner))
    ensures c in ApplyAll(st, os).choices && ApplyAll(st, os).choices[c] == ChoiceEntry(true, YES, Some(winner))
    decreases |os|
  {
    if os == [] {
      assert false;
    } else {
      AllStillGood(st, os);
      assert os[0] in os;
      if os[0].Setting? && os[0].name == winner {
        NotAgain(os, winner);
        Wins(st, os, c, winner);
        hide Apply; hide Elects; hide GoodOutput; hide Distinct;
        NoMoreVotes(Apply(st, os[0]), os[1..], c);
      } else {
        DistinctRest(os);
        Loses(st, os, c, winner);
        hide Apply; hide Elects; hide GoodOutput; hide Distinct;
        ChoiceElected(Apply(st, os[0]), os[1..], c, winner);
      }
    }
  }

  lemma ResetElects(st: Store, os: seq<Output>, c: nat, winner: Option<string>)
    requires Elects(st, os, c, winner)
    ensures Elects(Reset(st), os, c, winner)
  {
  }

  /** Reading a written file back picks, for every choice, the member that was y in it,
      whatever the order of the lines; without one the choice has no pick. */
  lemma ChoiceRead(st: Store, os: seq<Output>, c: nat, winner: Option<string>)
    requires (forall o :: o in os ==> GoodOutput(st, o)) && Distinct(os)
    requires c in st.choices && Elects(st, os, c, winner)
    ensures var back := ReadAll(Reset(st), Lines(Concat(PrintAll(os))));
            c in back.choices && back.choices[c] == ChoiceEntry(true, TriBool(winner.Some?), winner)
  {
    var start := Reset(st);
    forall o | o in os ensures GoodOutput(start, o) {
      assert GoodOutput(st, o);
    }
    ResetElects(st, os, c, winner);
    hide ReadLine; hide ReadAll; hide PrintAll; hide GoodOutput; hide Distinct; hide Elects; hide ApplyAll;
    ReadAllPrinted(start, os);
    PrintedSplits(st, os);
    hide Lines; hide Concat;
    if winner.Some? {
      ChoiceElected(start, os, c, winner.value);
    } else {
      NoMoreVotes(start, os, c);
    }
  }

  lemma DistinctRest(os: seq<Output>)
    requires os != [] && Distinct(os)
    ensures Distinct(os[1..])
  {}

  lemma NotAgain(os: seq<Output>, name: string)
    requires os != [] && Distinct(os) && os[0].Setting? && os[0].name == name
    ensures forall o :: o in os[1..] && o.Setting? ==> o.name != name
  {
    forall o | o in os[1..] && o.Setting? ensures o.name != name {
      var j :| 0 <= j < |os[1..]| && os[1..][j] == o;
      assert os[j + 1] == o;
    }
  }
}
