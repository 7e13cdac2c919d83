/** Text files as sequences of lines. */
module TextLines {
  /** strchr: the place of the first c, or the length. */
  function Find(s: string, c: char): (n: nat)
    ensures n <= |s| && c !in s[..n] && (n < |s| ==> s[n] == c)
  {
    if s == "" || s[0] == c then 0
    else assert s[..1 + Find(s[1..], c)] == [s[0]] + s[1..][..Find(s[1..], c)]; 1 + Find(s[1..], c)
  }

  lemma {:induction false} FindAfter(s: string, c: char, t: string)
    requires c !in s
    ensures Find(s + [c] + t, c) == |s|
  {
    if s != "" {
      FindAfter(s[1..], c, t);
      assert (s + [c] + t)[1..] == s[1..] + [c] + t;
    }
  }

  /** compat_getline over a whole file: each line keeps its newline, the last may lack it. */
  function Lines(text: string): seq<string>
    decreases |text|
  {
    var n := Find(text, '\n');
    if text == "" then []
    else if n == |text| then [text]
    else [text[..n + 1]] + Lines(text[n + 1..])
  }

  function Concat(lines: seq<string>): string {
    if lines == [] then "" else lines[0] + Concat(lines[1..])
  }

  /** No newline but at the end. */
  predicate Unbroken(l: string) { l != "" && '\n' !in l[..|l| - 1] }

  predicate IsLine(l: string) { Unbroken(l) && l[|l| - 1] == '\n' }

  /** Lines of which only the last may lack its newline. */
  predicate AreLines(lines: seq<string>) {
    forall i :: 0 <= i < |lines| ==> Unbroken(lines[i]) && (i < |lines| - 1 ==> IsLine(lines[i]))
  }

  lemma AllLines(lines: seq<string>)
    requires forall l :: l in lines ==> IsLine(l)
    ensures AreLines(lines)
  {
    hide IsLine; hide Unbroken;
    forall i | 0 <= i < |lines| ensures IsLine(lines[i]) && Unbroken(lines[i]) {
      assert lines[i] in lines;
      LineUnbroken(lines[i]);
    }
  }

  lemma LineUnbroken(l: string)
    requires IsLine(l)
    ensures Unbroken(l)
  {
  }

  lemma FirstLine(l: string, rest: string)
    requires IsLine(l)
    ensures Lines(l + rest) == [l] + Lines(rest)
  {
    var body, text := l[..|l| - 1], l + rest;
    FindAfter(body, '\n', rest);
    assert text == body + ['\n'] + rest;
    assert text[..|body| + 1] == l && text[|body| + 1..] == rest;
  }

  lemma LastLine(l: string)
    requires Unbroken(l)
    ensures Lines(l) == [l]
  {
    if IsLine(l) {
      assert l + "" == l;
      FirstLine(l, "");
    } else {
      assert l == l[..|l| - 1] + [l[|l| - 1]];
    }
  }

  /** A file put together from lines is read as those lines. */
  lemma {:induction false} LinesOfConcat(lines: seq<string>)
    requires AreLines(lines)
    ensures Lines(Concat(lines)) == lines
  {
    hide Lines; hide IsLine; hide Unbroken;
    if lines == [] {
      assert Lines("") == [] by { LinesOfNothing(); }
    } else if |lines| == 1 {
      assert Concat(lines[1..]) == "" && lines[0] + "" == lines[0];
      LastLine(lines[0]);
    } else {
      LinesOfConcat(lines[1..]);
      FirstLine(lines[0], Concat(lines[1..]));
    }
  }

  lemma LinesOfNothing()
    ensures Lines("") == []
  {
  }
}
