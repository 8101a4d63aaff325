// Texts as lines: Python's `splitlines`, and stripping a text at its end.
module Lines {
  import opened Text

  // Every line is ended by a break or by the end of the text; "\r\n" is one break.
  function SplitLines(s: string): seq<string> {
    if s == [] then []
    else if IsBreak(s[0]) then
      [""] + SplitLines(if s[0] == '\r' && |s| > 1 && s[1] == '\n' then s[2..] else s[1..])
    else
      var rest := SplitLines(s[1..]);
      if rest == [] then [[s[0]]] else [[s[0]] + rest[0]] + rest[1..]
  }

  lemma Regroup<T>(a: seq<T>, b: seq<T>, c: seq<T>)
    ensures a + (b + c) == (a + b) + c
  {
  }

  ghost predicate NoBreaks(s: string) { forall i :: 0 <= i < |s| ==> !IsBreak(s[i]) }

  ghost predicate AllUnbroken(lines: seq<string>) { forall i :: 0 <= i < |lines| ==> NoBreaks(lines[i]) }

  // '\n' is the only break in s.
  ghost predicate PlainBreaks(s: string) { forall i :: 0 <= i < |s| && IsBreak(s[i]) ==> s[i] == '\n' }

  lemma {:induction false} LinesUnbroken(s: string)
    ensures AllUnbroken(SplitLines(s))
    decreases |s|
  {
    if s != [] {
      if IsBreak(s[0]) {
        LinesUnbroken(if s[0] == '\r' && |s| > 1 && s[1] == '\n' then s[2..] else s[1..]);
      } else {
        LinesUnbroken(s[1..]);
      }
    }
  }

  function Prefixed(x: char, lines: seq<string>): seq<string> {
    if lines == [] then [[x]] else [[x] + lines[0]] + lines[1..]
  }

  lemma LinesCons(x: char, t: string)
    requires !(x == '\r' && t != [] && t[0] == '\n')
    ensures SplitLines([x] + t) == if IsBreak(x) then [""] + SplitLines(t) else Prefixed(x, SplitLines(t))
  {
    assert ([x] + t)[1..] == t;
  }

  lemma LinesCrLf(t: string)
    ensures SplitLines("\r\n" + t) == [""] + SplitLines(t)
  {
    assert ("\r\n" + t)[2..] == t;
  }

  lemma LinesOfNone()
    ensures SplitLines("") == []
  {
  }

  lemma SomeLines(s: string)
    requires s != []
    ensures SplitLines(s) != []
  {
  }

  lemma PrefixedConcat(x: char, a: seq<string>, b: seq<string>)
    requires a != []
    ensures Prefixed(x, a + b) == Prefixed(x, a) + b
  {
    assert (a + b)[1..] == a[1..] + b;
  }

  // A text that ends in a complete break keeps its lines whatever follows it.
  lemma {:induction false} LinesAppend(p: string, s: string)
    requires p != [] && IsBreak(p[|p| - 1]) && p[|p| - 1] != '\r'
    ensures SplitLines(p + s) == SplitLines(p) + SplitLines(s)
    decreases |p|
  {
    hide SplitLines, IsBreak, Prefixed;
    var x, t := p[0], p[1..];
    assert p == [x] + t && p + s == [x] + (t + s);
    LinesOfNone();
    if t == [] {
      assert t + s == s;
      LinesCons(x, s);
      LinesCons(x, []);
      assert [""] + [] == [""];
    } else if x == '\r' && t[0] == '\n' {
      var u := t[1..];
      assert p == "\r\n" + u && p + s == "\r\n" + (u + s);
      LinesCrLf(u);
      LinesCrLf(u + s);
      if u == [] { assert u + s == s && [""] + [] == [""]; } else { LinesAppend(u, s); }
    } else {
      LinesAppend(t, s);
      LinesCons(x, t);
      LinesCons(x, t + s);
      SomeLines(t);
      PrefixedConcat(x, SplitLines(t), SplitLines(s));
    }
  }

  // Where '\n' is the only break, lines are the parts between newlines.
  lemma {:induction false} PlainLines(s: string)
    requires PlainBreaks(s)
    ensures SplitLines(s + "\n") == Split(s, '\n')
  {
    if s == [] {
      assert SplitLines("\n") == [""];
    } else {
      assert (s + "\n")[1..] == s[1..] + "\n";
      PlainLines(s[1..]);
    }
  }

  lemma {:induction false} EndedLine(m: string, c: char)
    requires NoBreaks(m) && IsBreak(c)
    ensures SplitLines(m + [c]) == [m]
  {
    if m == [] {
      assert m + [c] == [c] && [c][1..] == [];
    } else {
      assert (m + [c])[1..] == m[1..] + [c];
      EndedLine(m[1..], c);
      assert [m[0]] + m[1..] == m;
    }
  }

  // What stands between two breaks is a line.
  lemma LineBetween(a: string, c: char, m: string, d: string)
    requires IsBreak(c) && c != '\r' && NoBreaks(m)
    ensures m in SplitLines(a + [c] + m + [c] + d)
  {
    var top, middle := a + [c], m + [c];
    assert a + [c] + m + [c] + d == top + (middle + d);
    LinesAppend(top, middle + d);
    LinesAppend(middle, d);
    EndedLine(m, c);
    assert SplitLines(top + (middle + d)) == SplitLines(top) + ([m] + SplitLines(d));
    assert (SplitLines(top) + ([m] + SplitLines(d)))[|SplitLines(top)|] == m;
  }

  lemma {:induction false} JoinPlain(lines: seq<string>)
    requires AllUnbroken(lines)
    ensures PlainBreaks(Join(lines, "\n"))
  {
    if |lines| > 1 { JoinPlain(lines[1..]); }
    else if |lines| == 1 { assert NoBreaks(lines[0]); }
  }

  lemma UnbrokenLack(lines: seq<string>)
    requires AllUnbroken(lines)
    ensures AllLack(lines, '\n')
  {
    forall i | 0 <= i < |lines| ensures Lacks(lines[i], '\n') {
      assert NoBreaks(lines[i]);
    }
  }

  lemma {:induction false} LStripAppend(s: string, c: char)
    requires IsSpace(c)
    ensures LStrip(s + [c]) == if LStrip(s) == [] then [] else LStrip(s) + [c]
  {
    if s == [] {
      assert LStrip([c]) == LStrip([c][1..]) == [];
    } else if IsSpace(s[0]) {
      assert (s + [c])[1..] == s[1..] + [c];
      LStripAppend(s[1..], c);
    }
  }

  lemma StripAppend(s: string, c: char)
    requires IsSpace(c)
    ensures Strip(s + [c]) == Strip(s)
  {
    LStripAppend(s, c);
    if LStrip(s) != [] { assert (LStrip(s) + [c])[..|LStrip(s)|] == LStrip(s); }
  }

  lemma SplitCons(x: char, t: string, sep: char)
    ensures Split([x] + t, sep) == if x == sep then [""] + Split(t, sep) else [[x] + Split(t, sep)[0]] + Split(t, sep)[1..]
  {
    assert ([x] + t)[1..] == t;
  }

  // The parts with one more character at the end.
  function Extended(parts: seq<string>, c: char, sep: char): seq<string>
    requires parts != []
  {
    if c == sep then parts + [""] else parts[..|parts| - 1] + [parts[|parts| - 1] + [c]]
  }

  lemma ExtendedCons(x: char, parts: seq<string>, c: char, sep: char)
    requires parts != []
    ensures [""] + Extended(parts, c, sep) == Extended([""] + parts, c, sep)
    ensures [[x] + Extended(parts, c, sep)[0]] + Extended(parts, c, sep)[1..] == Extended([[x] + parts[0]] + parts[1..], c, sep)
  {
    if c != sep && |parts| == 1 { assert [x] + (parts[0] + [c]) == [x] + parts[0] + [c]; }
  }

  // One more character at the end of a text extends its last part or opens a new one.
  lemma {:induction false} SplitLast(s: string, c: char, sep: char)
    ensures Split(s + [c], sep) == Extended(Split(s, sep), c, sep)
  {
    if s == [] {
      SplitCons(c, [], sep);
      assert s + [c] == [c] + [] && [c] + "" == [c] && Split([], sep) == [""];
    } else {
      hide Split, Extended;
      assert s == [s[0]] + s[1..] && s + [c] == [s[0]] + (s[1..] + [c]);
      SplitLast(s[1..], c, sep);
      SplitCons(s[0], s[1..], sep);
      SplitCons(s[0], s[1..] + [c], sep);
      ExtendedCons(s[0], Split(s[1..], sep), c, sep);
    }
  }
}
