/** The reader of the configuration file, working inside its line buffer. */
module ConfReader {
  import opened Wrappers
  import opened Exprs
  import opened Escape
  import opened Conf
  import opened TextLines

  /** memcmp or strncmp of the string at i with t. */
  method MatchAt(a: array<char>, i: nat, t: string, ghost s: string) returns (same: bool)
    requires CString(a[..], i, s) && '\0' !in t
    ensures same == Starts(s, t)
  {
    CStringChars(a[..], i, s);
    var k := 0;
    while k < |t|
      invariant 0 <= k <= |t| && k <= |s| && s[..k] == t[..k]
    {
      assert a[..][i + k] == a[i + k];
      if a[i + k] != t[k] {
        if |t| <= |s| {
          assert s[..|t|][k] == s[k];
        }
        return false;
      }
      assert s[..k + 1] == s[..k] + [s[k]] && t[..k + 1] == t[..k] + [t[k]];
      k := k + 1;
    }
    assert t[..|t|] == t;
    return true;
  }

  lemma FindIs(s: string, c: char, n: nat)
    requires n <= |s| && c !in s[..n] && (n < |s| ==> s[n] == c)
    ensures n == Find(s, c)
  {
    if n < |s| {
      FindAfter(s[..n], c, s[n + 1..]);
      assert s[..n] + [c] + s[n + 1..] == s;
    } else {
      assert s[..n] == s;
    }
  }

  /** strchr in the string at i: the distance to the first c, or to the terminator. */
  method FindAt(a: array<char>, i: nat, c: char, ghost s: string) returns (n: nat)
    requires CString(a[..], i, s) && c != '\0'
    ensures n == Find(s, c) && (a[i + n] == '\0' <==> n == |s|) && i + n < a.Length
  {
    CStringChars(a[..], i, s);
    n := 0;
    while a[i + n] != '\0' && a[i + n] != c
      invariant n <= |s| && c !in s[..n]
      decreases |s| - n
    {
      assert a[..][i + n] == a[i + n];
      assert s[..n + 1] == s[..n] + [s[n]];
      n := n + 1;
    }
    assert a[..][i + n] == a[i + n];
    FindIs(s, c, n);
  }

  /** xstrdup. */
  method CopyAt(a: array<char>, i: nat, ghost s: string) returns (r: string)
    requires CString(a[..], i, s)
    ensures r == s
  {
    CStringChars(a[..], i, s);
    r := "";
    while a[i + |r|] != '\0'
      invariant |r| <= |s| && r == s[..|r|]
      decreases |s| - |r|
    {
      assert a[..][i + |r|] == a[i + |r|];
      assert s[..|r| + 1] == s[..|r|] + [s[|r|]];
      r := r + [a[i + |r|]];
    }
    assert a[..][i + |r|] == a[i + |r|];
  }

  /** Cutting a string at n leaves two: the part before, and the part after the cut. */
  method CutAt(a: array<char>, i: nat, n: nat, ghost s: string)
    requires CString(a[..], i, s) && n < |s|
    modifies a
    ensures CString(a[..], i, s[..n]) && CString(a[..], i + n + 1, s[n + 1..])
    ensures forall k :: 0 <= k < a.Length && k != i + n ==> a[k] == old(a[k])
  {
    CStringPrefix(a[..], i, s, n);
    CStringDrop(a[..], i, s, n + 1);
    ghost var was := a[..];
    a[i + n] := '\0';
    assert a[..][i..i + n] == was[i..i + n];
    assert a[..][i + n + 1..i + |s|] == was[i + n + 1..i + |s|];
    assert forall c :: c in s[..n] ==> c in s;
    assert forall c :: c in s[n + 1..] ==> c in s;
  }

  /** Ending the value of a line before its newline and a carriage return. */
  method ChompAt(a: array<char>, i: nat, ghost p: string)
    requires CString(a[..], i, p) && i > 0 && a[i - 1] == '\0'
    modifies a
    ensures CString(a[..], i, Chomp(p))
    ensures forall k :: 0 <= k < i ==> a[k] == old(a[k])
  {
    var n := FindAt(a, i, '\n', p);
    if a[i + n] == '\0' {
      return;
    }
    CutAt(a, i, n, p);
    if a[i + n - 1] == '\r' {
      assert n > 0;
      ghost var q := p[..n];
      CStringChars(a[..], i, q);
      assert a[..][i + n - 1] == a[i + n - 1];
      CutAt(a, i, n - 1, q);
      assert q[..n - 1] == p[..n - 1];
    } else if n > 0 {
      CStringChars(a[..], i, p[..n]);
      assert a[..][i + n - 1] == a[i + n - 1];
    }
  }

  /** The quoted form of a string value: unquoted inside the buffer, then checked. */
  method OfferQuoted(e: Entry, a: array<char>, p: nat, ghost v: string) returns (r: SetResult)
    requires CString(a[..], p, v)
    modifies a
    ensures r == SetQuoted(e, v)
  {
    CStringChars(a[..], p, v);
    assert a[..][p] == a[p];
    if a[p] != '"' {
      return SetResult(e, false);
    }
    CStringDrop(a[..], p, v, 1);
    hide CString; hide Unquote;
    var closed := UnquoteInPlace(a, p + 1, v[1..]);
    if !closed {
      return SetResult(e, true);
    }
    var value := CopyAt(a, p + 1, Unquote(v[1..]).value);
    r := OfferChecked(e, value);
  }

  method OfferChecked(e: Entry, value: string) returns (r: SetResult)
    ensures r == SetChecked(e, value)
  {
    if StringValid(e.typ, value) {
      r := SetResult(e.(val := Some(value), has := true), false);
    } else {
      r := SetResult(e, true);
    }
  }

  /** conf_set_sym_val on the text at p of the line buffer. */
  method Offer(e: Entry, a: array<char>, p: nat, ghost v: string) returns (r: SetResult)
    requires CString(a[..], p, v)
    modifies a
    ensures r == SetValue(e, v)
  {
    CStringChars(a[..], p, v);
    assert a[..][p] == a[p];
    hide CString; hide SetQuoted; hide SetChecked;
    if e.typ == Tristate && a[p] == 'm' {
      return SetResult(e.(tri := MOD, has := true), false);
    }
    if e.typ == Tristate || e.typ == Boolean {
      if a[p] == 'y' {
        return SetResult(e.(tri := YES, has := true), false);
      }
      if a[p] == 'n' {
        return SetResult(e.(tri := NO, has := true), false);
      }
      return SetResult(e, true);
    }
    match e.typ {
      case Other =>
        if a[p] != '"' {
          var value := CopyAt(a, p, v);
          r := OfferChecked(e.(typ := Str), value);
        } else {
          r := OfferQuoted(e, a, p, v);
        }
      case Str =>
        r := OfferQuoted(e, a, p, v);
      case Int =>
        var value := CopyAt(a, p, v);
        r := OfferChecked(e, value);
      case Hex =>
        var value := CopyAt(a, p, v);
        r := OfferChecked(e, value);
      case _ =>
        r := SetResult(e, false);
    }
  }

  /** The effect of a line that begins with #, by the pieces the reader cuts it into. */
  lemma CommentParts(st: Store, line: string)
    requires line != "" && line[0] == '#'
    ensures |line| < 2 || !Starts(line[2..], PREFIX) ==> ReadLine(st, line) == st
    ensures |line| >= 2 && Starts(line[2..], PREFIX) ==>
              var rest := line[2..][|PREFIX|..];
              var n := Find(rest, ' ');
              ReadLine(st, line) == if n == |rest| || !Starts(rest[n + 1..], UNSET) then st else SetUnset(st, rest[..n])
  {
    hide Find; hide SetUnset; hide SetTo;
    if |line| >= 2 && Starts(line[2..], PREFIX) {
      assert line[2..][|PREFIX|..] == line[2 + |PREFIX|..];
    }
  }

  /** The symbols and choices, as the loop of conf_read_simple updates them. */
  class Reader {
    var syms: map<string, Entry>
    var choices: map<nat, ChoiceEntry>

    function Stored(): Store
      reads this
    {
      Store(syms, choices)
    }

    constructor (st: Store)
      ensures Stored() == st
    {
      syms, choices := st.syms, st.choices;
    }

    /** The end of the loop body: the symbol is stored, and its choice told of its value. */
    method SetSym(name: string, e: Entry)
      modifies this
      ensures Stored() == Put(old(Stored()), name, e)
    {
      syms := syms[name := e];
      if e.choice.Some? && e.choice.value in choices {
        var cs := choices[e.choice.value];
        if e.tri == MOD {
          if cs.tri == YES {
            cs := cs.(has := false);
          }
        } else if e.tri == YES {
          cs := cs.(pick := Some(name));
        }
        cs := cs.(tri := TriMax(cs.tri, e.tri));
        choices := choices[e.choice.value := cs];
      }
    }

    /** A line that begins with #: the name is cut off at the space that follows it. */
    method ReadComment(a: array<char>, ghost line: string)
      requires CString(a[..], 0, line) && line != "" && line[0] == '#'
      modifies this, a
      ensures Stored() == ReadLine(old(Stored()), line)
    {
      hide ReadLine; hide SetUnset; hide Find;
      CommentParts(Stored(), line);
      CStringChars(a[..], 0, line);
      assert a[..][1] == a[1];
      // The line is only "#", without a newline: the source would compare what an
      // earlier line left in the buffer.
      if a[1] == '\0' {
        return;
      }
      CStringDrop(a[..], 0, line, 2);
      var ours := MatchAt(a, 2, PREFIX, line[2..]);
      if !ours {
        return;
      }
      ghost var rest := line[2..][|PREFIX|..];
      CStringDrop(a[..], 2, line[2..], |PREFIX|);
      ReadUnset(a, 2 + |PREFIX|, rest);
    }

    /** The rest of such a line, after the prefix. */
    method ReadUnset(a: array<char>, i: nat, ghost rest: string)
      requires CString(a[..], i, rest)
      modifies this, a
      ensures var n := Find(rest, ' ');
              Stored() == if n == |rest| || !Starts(rest[n + 1..], UNSET) then old(Stored()) else SetUnset(old(Stored()), rest[..n])
    {
      hide CString; hide SetUnset; hide Find;
      var n := FindAt(a, i, ' ', rest);
      if a[i + n] == '\0' {
        return;
      }
      CutAt(a, i, n, rest);
      var unset := MatchAt(a, i + n + 1, UNSET, rest[n + 1..]);
      if !unset {
        return;
      }
      var name := CopyAt(a, i, rest[..n]);
      UnsetSym(name);
    }

    /** A bool or tristate that is not set is n. */
    method UnsetSym(name: string)
      modifies this
      ensures Stored() == SetUnset(old(Stored()), name)
    {
      if name in syms && name != "y" && name != "m" && name != "n" {
        var e := syms[name];
        if e.typ == Boolean || e.typ == Tristate {
          e := e.(tri := NO, has := true);
        }
        SetSym(name, e);
      }
    }

    /** A line that begins with CONFIG_: name and value are cut apart at the equals sign. */
    method ReadSetting(a: array<char>, ghost line: string)
      requires CString(a[..], 0, line) && Starts(line, PREFIX)
      modifies this, a
      ensures Stored() == ReadLine(old(Stored()), line)
    {
      ghost var rest := line[|PREFIX|..];
      assert line[0] == PREFIX[0];
      CStringDrop(a[..], 0, line, |PREFIX|);
      var i := |PREFIX|;
      hide CString;
      var n := FindAt(a, i, '=', rest);
      if a[i + n] == '\0' {
        return;
      }
      CutAt(a, i, n, rest);
      var name, value := CutValue(a, i, n, rest);
      if name in syms && name != "y" && name != "m" && name != "n" {
        var r := Offer(syms[name], a, value, Chomp(rest[n + 1..]));
        if !r.bad {
          SetSym(name, r.entry);
        }
      }
    }

    /** One pass of the loop. */
    method Read(a: array<char>, ghost line: string)
      requires CString(a[..], 0, line)
      modifies this, a
      ensures Stored() == ReadLine(old(Stored()), line)
    {
      CStringChars(a[..], 0, line);
      assert a[..][0] == a[0];
      if a[0] == '#' {
        ReadComment(a, line);
      } else {
        var ours := MatchAt(a, 0, PREFIX, line);
        if ours {
          ReadSetting(a, line);
        }
      }
    }
  }

  /** The value after the equals sign, ended before the newline, and a copy of the name. */
  method CutValue(a: array<char>, i: nat, n: nat, ghost rest: string) returns (name: string, p: nat)
    requires n < |rest| && CString(a[..], i, rest[..n]) && CString(a[..], i + n + 1, rest[n + 1..])
    modifies a
    ensures name == rest[..n] && CString(a[..], p, Chomp(rest[n + 1..]))
  {
    name := CopyAt(a, i, rest[..n]);
    p := i + n + 1;
    ChompAt(a, p, rest[n + 1..]);
  }

  /** conf_read_simple: every symbol is reset, then the lines are read in turn, each in a
      buffer of its own. */
  method ReadSimple(st: Store, lines: seq<string>) returns (reader: Reader)
    requires forall l :: l in lines ==> '\0' !in l
    ensures reader.Stored() == ReadAll(Reset(st), lines)
  {
    reader := new Reader(Reset(st));
    hide ReadLine; hide Reset;
    for k := 0 to |lines|
      invariant fresh(reader)
      invariant ReadAll(reader.Stored(), lines[k..]) == ReadAll(Reset(st), lines)
    {
      var line := lines[k];
      var buffer := new char[|line| + 1](i => if 0 <= i < |line| then line[i] else '\0');
      assert buffer[..][0..|line|] == line;
      assert lines[k..][1..] == lines[k + 1..];
      reader.Read(buffer, line);
    }
  }
}
