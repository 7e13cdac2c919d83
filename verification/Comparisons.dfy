/** What comparisons of numbers and of strings decide. */
module Comparisons {
  import opened Wrappers
  import opened Exprs

  /** i stands to j as the operator says. */
  predicate Related(op: CmpOp, i: int, j: int) {
    match op
    case Eq => i == j
    case Ne => i != j
    case Lt => i < j
    case Le => i <= j
    case Gt => i > j
    case Ge => i >= j
  }

  // ----- numerals -----

  function Digit(d: nat): char
    requires d < 16
  {
    if d < 10 then (d + '0' as int) as char else (d - 10 + 'a' as int) as char
  }

  /** The shortest numeral of n. */
  function Written(n: nat, base: nat): string
    requires base == 10 || base == 16
  {
    if n < base then [Digit(n)] else Written(n / base, base) + [Digit(n % base)]
  }

  function Numeral(i: int): string { if i < 0 then "-" + Written(-i, 10) else Written(i, 10) }

  lemma DigitValue(d: nat)
    requires d < 16
    ensures DigitVal(Digit(d)) == d
    ensures Digit(d) == '0' <==> d == 0
    ensures Plain(Digit(d))
  {
  }

  lemma DigitsStep(s: string, base: nat, acc: nat)
    ensures s != "" && DigitVal(s[0]) < base ==> Digits(s, base, acc) == Digits(s[1..], base, acc * base + DigitVal(s[0]))
    ensures s != "" && Digits(s, base, acc).Some? ==> DigitVal(s[0]) < base
    ensures Digits("", base, acc) == Some(acc)
  {
  }

  lemma Natural(acc: nat, base: nat, c: char)
    ensures acc * base + DigitVal(c) >= 0
  {
  }

  lemma {:induction false} DigitsSnoc(s: string, c: char, base: nat, acc: nat)
    requires DigitVal(c) < base
    requires Digits(s, base, acc).Some?
    ensures Digits(s + [c], base, acc) == Some(Digits(s, base, acc).value * base + DigitVal(c))
  {
    hide Digits; hide DigitVal;
    DigitsStep(s, base, acc);
    DigitsStep(s + [c], base, acc);
    Natural(acc, base, c);
    if s == "" {
      assert s + [c] == [c] && [c][1..] == "";
      DigitsStep("", base, acc * base + DigitVal(c));
    } else {
      Natural(acc, base, s[0]);
      assert (s + [c])[1..] == s[1..] + [c] && (s + [c])[0] == s[0];
      DigitsSnoc(s[1..], c, base, acc * base + DigitVal(s[0]));
    }
  }

  /** A character that is no sign, no space and no x. */
  predicate Plain(c: char) { !IsSpace(c) && c != '-' && c != '+' && c != 'x' && c != 'X' }

  /** A numeral is that of a smaller number and one more digit, or a single digit. */
  lemma LastDigit(n: nat, base: nat) returns (m: nat, d: nat)
    requires base == 10 || base == 16
    ensures d < base && n == m * base + d
    ensures n < base ==> Written(n, base) == [Digit(n)] && d == n
    ensures n >= base ==> 0 < m < n && Written(n, base) == Written(m, base) + [Digit(d)]
  {
    m, d := n / base, n % base;
    if base == 10 {
      assert n == (n / 10) * 10 + n % 10;
    } else {
      assert n == (n / 16) * 16 + n % 16;
    }
    hide Digit;
  }

  lemma {:induction false} WrittenPlain(n: nat, base: nat)
    requires base == 10 || base == 16
    ensures forall c :: c in Written(n, base) ==> Plain(c)
  {
    var m, d := LastDigit(n, base);
    DigitValue(d);
    hide Digit; hide Written; hide Plain;
    if n >= base {
      WrittenPlain(m, base);
    }
  }

  /** A numeral is read as its number, and has a leading zero only for zero. */
  lemma {:induction false} WrittenRead(n: nat, base: nat)
    requires base == 10 || base == 16
    ensures Written(n, base) != "" && Digits(Written(n, base), base, 0) == Some(n)
    ensures Written(n, base)[0] == '0' <==> n == 0
    ensures n == 0 ==> Written(n, base) == "0"
  {
    var m, d := LastDigit(n, base);
    DigitValue(d);
    DigitZero();
    hide Digit; hide Written;
    if n < base {
      DigitsSnoc("", Digit(n), base, 0);
      assert "" + [Digit(n)] == [Digit(n)];
    } else {
      WrittenRead(m, base);
      hide Digits;
      DigitsSnoc(Written(m, base), Digit(d), base, 0);
    }
  }

  lemma DigitZero()
    ensures [Digit(0)] == "0"
  {
  }

  lemma NumeralRead(i: int, base: nat)
    requires base == 10 || base == 0
    ensures StrToNumber(Numeral(i), base) == Some(i)
  {
    var n := if i < 0 then -i else i;
    var w := Written(n, 10);
    WrittenRead(n, 10);
    WrittenPlain(n, 10);
    var s := Numeral(i);
    assert i < 0 ==> s[1..] == w;
    assert w[0] in w;
    if base == 0 && n == 0 {
      assert w == "0" && w[1..] == "";
      assert Digits(w, 8, 0) == Digits(w[1..], 8, 0);
    }
    assert UnsignedPart(w, base) == Some(n);
  }

  lemma HexRead(n: nat)
    ensures StrToNumber(Written(n, 16), 16) == Some(n)
    ensures StrToNumber("0x" + Written(n, 16), 16) == Some(n)
  {
    var w := Written(n, 16);
    WrittenRead(n, 16);
    WrittenPlain(n, 16);
    assert w[0] in w && (|w| > 1 ==> w[1] in w);
    assert ("0x" + w)[2..] == w;
  }

  /** The symbol's string is a numeral of its type for i: decimal for an int or an
      untyped constant, hexadecimal with or without 0x for a hex symbol. */
  predicate Spells(env: Env, s: Symbol, i: int) {
    var str := StringValue(env, s);
    if s.typ.Hex? then 0 <= i < TWO64 && (str == Written(i, 16) || str == "0x" + Written(i, 16))
    else (s.typ.Int? || s.typ.Unknown?) && -TWO63 <= i < TWO63 && str == Numeral(i)
  }

  lemma SpellingRead(env: Env, s: Symbol, i: int)
    requires Spells(env, s, i)
    ensures ParseString(StringValue(env, s), s.typ) == if s.typ.Hex? then AsUnsigned(i) else AsSigned(i)
  {
    if s.typ.Hex? {
      HexRead(i);
    } else {
      NumeralRead(i, 10);
      NumeralRead(i, 0);
    }
  }

  lemma Unsigned(i: int)
    ensures 0 <= i < TWO64 ==> i % TWO64 == i
  {
  }

  /** Numbers are compared as numbers: each operator gives y exactly when they stand in
      its relation.  Beside a hex symbol, which is read without a sign, they must not be
      negative. */
  lemma NumbersCompared(env: Env, op: CmpOp, l: Symbol, r: Symbol, i: int, j: int)
    requires Spells(env, l, i) && Spells(env, r, j)
    requires l.typ.Hex? || r.typ.Hex? ==> i >= 0 && j >= 0
    ensures CmpValue(env, op, l, r) == TriBool(Related(op, i, j))
  {
    hide StringValue; hide ParseString; hide StrCmp; hide Numeral; hide Written;
    SpellingRead(env, l, i);
    SpellingRead(env, r, j);
    var k1, k2 := ParseString(StringValue(env, l), l.typ), ParseString(StringValue(env, r), r.typ);
    assert k1.v == i && k2.v == j;
    hide Spells;
    assert Compare(env, l, r) == Some(Sign(i, j)) by {
      Unsigned(i);
      Unsigned(j);
    }
  }

  /** Bools and tristates are compared by their values. */
  lemma TristatesCompared(env: Env, op: CmpOp, l: Symbol, r: Symbol)
    requires Produced(env) && (l.typ.Boolean? || l.typ.Tristate?) && (r.typ.Boolean? || r.typ.Tristate?)
    ensures CmpValue(env, op, l, r) == TriBool(Related(op, env.tri(l), env.tri(r)))
  {
    assert ProducedAt(env, l) && ProducedAt(env, r);
    hide StrCmp;
  }

  // ----- strings -----

  /** a comes before b: at the first place where they differ it has the smaller character,
      or it ends there. */
  predicate Before(a: string, b: string) {
    exists k :: 0 <= k <= |a| && DiffersAt(a, b, k)
  }

  predicate DiffersAt(a: string, b: string, k: nat)
    requires k <= |a|
  {
    k < |b| && a[..k] == b[..k] && (k < |a| ==> a[k] < b[k])
  }

  lemma {:induction false} StrCmpOrder(a: string, b: string)
    ensures StrCmp(a, b) < 0 <==> Before(a, b)
    ensures StrCmp(a, b) > 0 <==> Before(b, a)
    decreases |a|
  {
    BeforeEnds(a, b);
    if a != "" && b != "" {
      if a[0] == b[0] {
        StrCmpOrder(a[1..], b[1..]);
        BeforeTail(a, b);
        BeforeTail(b, a);
      } else {
        FirstDiffers(a, b);
        FirstDiffers(b, a);
      }
    }
  }

  lemma BeforeEnds(a: string, b: string)
    ensures a == "" ==> (Before(a, b) <==> b != "") && !Before(b, a)
    ensures b == "" ==> (Before(b, a) <==> a != "") && !Before(a, b)
  {
    if a == "" && b != "" {
      assert DiffersAt(a, b, 0);
    }
    if b == "" && a != "" {
      assert DiffersAt(b, a, 0);
    }
  }

  lemma SamePrefix(a: string, b: string, k: nat)
    requires k <= |a| && k <= |b|
    ensures a[..k] == b[..k] && k > 0 ==> a[0] == b[0]
  {
    if a[..k] == b[..k] && k > 0 {
      assert a[..k][0] == b[..k][0];
    }
  }

  lemma FirstDiffers(a: string, b: string)
    requires a != "" && b != "" && a[0] != b[0]
    ensures Before(a, b) <==> a[0] < b[0]
  {
    if a[0] < b[0] {
      assert DiffersAt(a, b, 0);
    }
    forall k | 0 <= k <= |a| && DiffersAt(a, b, k) ensures k == 0 {
      SamePrefix(a, b, k);
    }
  }

  lemma BeforeTail(a: string, b: string)
    requires a != "" && b != "" && a[0] == b[0]
    ensures Before(a, b) <==> Before(a[1..], b[1..])
  {
    if Before(a, b) {
      var k :| 0 <= k <= |a| && DiffersAt(a, b, k);
      assert a[1..][..k - 1] == a[..k][1..] && b[1..][..k - 1] == b[..k][1..];
      assert DiffersAt(a[1..], b[1..], k - 1);
    }
    if Before(a[1..], b[1..]) {
      var k :| 0 <= k <= |a[1..]| && DiffersAt(a[1..], b[1..], k);
      assert a[..k + 1] == [a[0]] + a[1..][..k] && b[..k + 1] == [b[0]] + b[1..][..k];
      assert DiffersAt(a, b, k + 1);
    }
  }

  /** The relation of two strings by that order. */
  predicate AsStrings(op: CmpOp, a: string, b: string) {
    match op
    case Eq => a == b
    case Ne => a != b
    case Lt => Before(a, b)
    case Le => Before(a, b) || a == b
    case Gt => Before(b, a)
    case Ge => Before(b, a) || a == b
  }

  /** Two string symbols are compared by the first place where they differ. */
  lemma StringsCompared(env: Env, op: CmpOp, l: Symbol, r: Symbol)
    requires l.typ.Str? && r.typ.Str?
    ensures CmpValue(env, op, l, r) == TriBool(AsStrings(op, StringValue(env, l), StringValue(env, r)))
  {
    StrCmpOrder(StringValue(env, l), StringValue(env, r));
    hide StrCmp; hide Before;
  }

  // ----- words -----

  /** What no numeral of any base is: empty, or ending in no digit. */
  predicate Word(s: string) { s == "" || DigitVal(s[|s| - 1]) >= 16 }

  lemma {:induction false} WordDigits(s: string, base: nat, acc: nat)
    requires s != "" && Word(s) && base <= 16
    ensures Digits(s, base, acc).None?
  {
    if DigitVal(s[0]) < base {
      WordDigits(s[1..], base, acc * base + DigitVal(s[0]));
    }
  }

  lemma WordParts(s: string, base: nat)
    requires Word(s) && base <= 16
    ensures UnsignedPart(s, base).None? && SignedPart(s, base).None?
  {
    forall t, b: nat | Word(t) && b <= 16 ensures AllDigits(t, b).None? {
      if t != "" {
        WordDigits(t, b, 0);
      }
    }
    hide Digits; hide AllDigits; hide DigitVal;
  }

  lemma {:induction false} WordNumber(s: string, base: nat)
    requires Word(s) && base <= 16
    ensures StrToNumber(s, base).None?
  {
    if s != "" && IsSpace(s[0]) {
      WordNumber(s[1..], base);
    } else {
      hide SignedPart;
      WordParts(s, base);
    }
  }

  lemma WordRead(s: string, typ: SymType)
    requires Word(s) && (typ.Int? || typ.Hex? || typ.Str? || typ.Unknown?)
    ensures ParseString(s, typ).AsString?
  {
    hide StrToNumber; hide Word;
    WordNumber(s, 0);
    WordNumber(s, 10);
    WordNumber(s, 16);
  }

  predicate IsWord(env: Env, s: Symbol) {
    (s.typ.Int? || s.typ.Hex? || s.typ.Str? || s.typ.Unknown?) && Word(StringValue(env, s))
  }

  /** If one of the two strings is no number, they are compared as strings. */
  lemma WordsCompared(env: Env, op: CmpOp, l: Symbol, r: Symbol)
    requires IsWord(env, l) || IsWord(env, r)
    ensures CmpValue(env, op, l, r) == TriBool(AsStrings(op, StringValue(env, l), StringValue(env, r)))
  {
    if IsWord(env, l) {
      WordRead(StringValue(env, l), l.typ);
    } else {
      WordRead(StringValue(env, r), r.typ);
    }
    StrCmpOrder(StringValue(env, l), StringValue(env, r));
    hide StrCmp; hide Before; hide ParseString; hide Word; hide StringValue;
  }
}
