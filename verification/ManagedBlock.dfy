// The managed block of .env.local (scripts/bootstrap_local_workspace.py, lines
// 175-232): a pair of comment markers around the settings the bootstrap owns.
// Everything outside the pair belongs to the user.
module ManagedBlock {
  import opened Options
  import opened Text
  import opened Lines

  const OWNER: string := "FounderOS local workspace"
  const SCRIPT: string := "bootstrap_local_workspace.py"
  const MANAGED_START: string := "# --- " + OWNER + ": managed by " + SCRIPT + " ---"
  const MANAGED_END: string := "# --- end " + OWNER + " ---"

  datatype Refusal = InvalidMarkers | UnstableValue | EncryptionKeyDiffers | LegacyKeyDiffers
  datatype Outcome<+T> = Done(value: T) | Refused(reason: Refusal)

  datatype Setting = Setting(key: string, value: string)

  // What a dotenv parser binds on one line.
  type Binder = string -> Option<Setting>

  // ---- Markers ----

  predicate IsMarker(line: string) { Strip(line) == MANAGED_START || Strip(line) == MANAGED_END }

  ghost predicate Unmarked(lines: seq<string>) { forall i :: 0 <= i < |lines| ==> !IsMarker(lines[i]) }

  function Markers(lines: seq<string>): seq<string> {
    if lines == [] then []
    else (if IsMarker(lines[0]) then [Strip(lines[0])] else []) + Markers(lines[1..])
  }

  predicate WellMarked(text: string) {
    var found := Markers(SplitLines(text));
    found == [] || found == [MANAGED_START, MANAGED_END]
  }

  ghost predicate Printable(s: string) { forall i :: 0 <= i < |s| ==> ' ' <= s[i] <= '~' }

  lemma NamesPrintable()
    ensures Printable(OWNER) && Printable(SCRIPT)
  {
  }

  lemma MarkersPrintable()
    ensures Printable(MANAGED_START) && Printable(MANAGED_END)
  {
    hide OWNER, SCRIPT;
    NamesPrintable();
  }

  lemma PrintableComment(s: string)
    requires Printable(s) && |s| > 1 && s[0] == '#' && s[|s| - 1] == '-'
    ensures NoBreaks(s) && Strip(s) == s
  {
    StripTrimmed(s);
  }

  lemma MarkerFacts()
    ensures Strip(MANAGED_START) == MANAGED_START && Strip(MANAGED_END) == MANAGED_END
    ensures MANAGED_START != [] && MANAGED_START[0] == '#' && MANAGED_END != [] && MANAGED_END[0] == '#'
    ensures MANAGED_START != MANAGED_END && NoBreaks(MANAGED_START) && NoBreaks(MANAGED_END)
    ensures IsMarker(MANAGED_START) && IsMarker(MANAGED_END)
  {
    hide Printable, Strip, NoBreaks;
    MarkersPrintable();
    assert MANAGED_START[6] == 'F' && MANAGED_END[6] == 'e';
    PrintableComment(MANAGED_START);
    PrintableComment(MANAGED_END);
  }

  lemma {:induction false} MarkersAppend(a: seq<string>, b: seq<string>)
    ensures Markers(a + b) == Markers(a) + Markers(b)
  {
    hide IsMarker, Strip;
    if a == [] {
      assert a + b == b;
    } else {
      assert (a + b)[1..] == a[1..] + b;
      MarkersAppend(a[1..], b);
    }
  }

  lemma {:induction false} UnmarkedIff(lines: seq<string>)
    ensures Unmarked(lines) <==> Markers(lines) == []
  {
    if lines != [] {
      UnmarkedIff(lines[1..]);
      assert Unmarked(lines) <==> !IsMarker(lines[0]) && Unmarked(lines[1..]) by {
        if !IsMarker(lines[0]) && Unmarked(lines[1..]) {
          forall i | 0 <= i < |lines| ensures !IsMarker(lines[i]) {
            if i > 0 { assert lines[i] == lines[1..][i - 1]; }
          }
        }
        if Unmarked(lines) {
          forall i | 0 <= i < |lines| - 1 ensures !IsMarker(lines[1..][i]) { assert lines[1..][i] == lines[i + 1]; }
        }
      }
    }
  }

  // ---- Stripping ----

  function Outside(lines: seq<string>, skipping: bool): seq<string> {
    if lines == [] then []
    else if Strip(lines[0]) == MANAGED_START then Outside(lines[1..], true)
    else if skipping && Strip(lines[0]) == MANAGED_END then Outside(lines[1..], false)
    else (if skipping then [] else [lines[0]]) + Outside(lines[1..], skipping)
  }

  function Stripped(text: string): Outcome<string> {
    if !WellMarked(text) then Refused(InvalidMarkers)
    else Done(RStrip(Join(Outside(SplitLines(text), false), "\n")))
  }

  method StripManagedBlock(text: string) returns (r: Outcome<string>)
    ensures r == Stripped(text)
  {
    hide MANAGED_START, MANAGED_END, Strip, WellMarked, SplitLines, Join, RStrip;
    if !WellMarked(text) { return Refused(InvalidMarkers); }
    var lines := SplitLines(text);
    var out: seq<string> := [];
    var skipping := false;
    for i := 0 to |lines|
      invariant Outside(lines, false) == out + Outside(lines[i..], skipping)
    {
      assert lines[i..][1..] == lines[i + 1..];
      if Strip(lines[i]) == MANAGED_START {
        skipping := true;
        continue;
      }
      if skipping && Strip(lines[i]) == MANAGED_END {
        skipping := false;
        continue;
      }
      if !skipping {
        out := out + [lines[i]];
      }
    }
    assert lines[|lines|..] == [] && out + [] == out;
    r := Done(RStrip(Join(out, "\n")));
  }

  lemma {:induction false} OutsideUnmarked(a: seq<string>, b: seq<string>, skipping: bool)
    requires Unmarked(a)
    ensures Outside(a + b, skipping) == (if skipping then [] else a) + Outside(b, skipping)
  {
    if a == [] {
      assert a + b == b;
    } else {
      assert (a + b)[1..] == a[1..] + b;
      assert Unmarked(a[1..]) by {
        forall i | 0 <= i < |a| - 1 ensures !IsMarker(a[1..][i]) { assert a[1..][i] == a[i + 1]; }
      }
      assert !IsMarker(a[0]);
      OutsideUnmarked(a[1..], b, skipping);
    }
  }

  // Stripping removes exactly the lines from the start marker to the end marker.
  lemma BlockRemoved(a: seq<string>, first: string, b: seq<string>, last: string, c: seq<string>)
    requires Unmarked(a) && Unmarked(b) && Unmarked(c)
    requires Strip(first) == MANAGED_START && Strip(last) == MANAGED_END
    ensures Markers(a + ([first] + (b + ([last] + c)))) == [MANAGED_START, MANAGED_END]
    ensures Outside(a + ([first] + (b + ([last] + c))), false) == a + c
  {
    hide MANAGED_START, MANAGED_END, Strip, Unmarked;
    UnmarkedIff(a);
    UnmarkedIff(b);
    UnmarkedIff(c);
    MarkersAppend(a, [first] + (b + ([last] + c)));
    OutsideUnmarked(a, [first] + (b + ([last] + c)), false);
    FromStart(first, b, last, c);
  }

  lemma FromEnd(last: string, c: seq<string>)
    requires Unmarked(c) && Strip(last) == MANAGED_END
    ensures Markers([last] + c) == [MANAGED_END] && Outside([last] + c, true) == c
  {
    hide Strip, Unmarked;
    MarkerFacts();
    UnmarkedIff(c);
    assert ([last] + c)[1..] == c && c + [] == c;
    OutsideUnmarked(c, [], false);
  }

  lemma FromStart(first: string, b: seq<string>, last: string, c: seq<string>)
    requires Unmarked(b) && Unmarked(c)
    requires Strip(first) == MANAGED_START && Strip(last) == MANAGED_END
    ensures Markers([first] + (b + ([last] + c))) == [MANAGED_START, MANAGED_END]
    ensures Outside([first] + (b + ([last] + c)), false) == c
  {
    hide MANAGED_START, MANAGED_END, Strip, Unmarked;
    assert ([first] + (b + ([last] + c)))[1..] == b + ([last] + c);
    FromEnd(last, c);
    UnmarkedIff(b);
    MarkersAppend(b, [last] + c);
    OutsideUnmarked(b, [last] + c, true);
  }

  // Up to its first marker a list of lines is unmarked.
  lemma {:induction false} FirstMarker(lines: seq<string>) returns (a: seq<string>, m: string, rest: seq<string>)
    requires Markers(lines) != []
    ensures lines == a + ([m] + rest) && Unmarked(a) && IsMarker(m) && Markers(lines) == [Strip(m)] + Markers(rest)
  {
    hide IsMarker, Strip;
    if IsMarker(lines[0]) {
      a, m, rest := [], lines[0], lines[1..];
    } else {
      var before;
      before, m, rest := FirstMarker(lines[1..]);
      a := [lines[0]] + before;
      assert a + ([m] + rest) == [lines[0]] + (before + ([m] + rest));
    }
  }

  // A text with a block is of the form that BlockRemoved is about.
  lemma BlockFound(lines: seq<string>) returns (a: seq<string>, first: string, b: seq<string>, last: string, c: seq<string>)
    requires Markers(lines) == [MANAGED_START, MANAGED_END]
    ensures lines == a + ([first] + (b + ([last] + c))) && Unmarked(a) && Unmarked(b) && Unmarked(c)
    ensures Strip(first) == MANAGED_START && Strip(last) == MANAGED_END
  {
    hide MANAGED_START, MANAGED_END, IsMarker, Strip;
    var rest;
    a, first, rest := FirstMarker(lines);
    assert Markers(lines)[0] == Strip(first) && Markers(lines)[1..] == Markers(rest);
    b, last, c := FirstMarker(rest);
    assert Markers(rest)[0] == Strip(last) && Markers(rest)[1..] == Markers(c) == [];
    UnmarkedIff(c);
  }

  // No line that survives stripping is a marker.
  lemma {:induction false} OutsideHasNoMarkers(lines: seq<string>, skipping: bool)
    requires var m := Markers(lines); m == [] || m == if skipping then [MANAGED_END] else [MANAGED_START, MANAGED_END]
    ensures Unmarked(Outside(lines, skipping))
  {
    if lines != [] {
      MarkerFacts();
      var m := Markers(lines);
      if IsMarker(lines[0]) {
        assert m == [Strip(lines[0])] + Markers(lines[1..]);
        assert m[1..] == Markers(lines[1..]) && m[0] == Strip(lines[0]);
        OutsideHasNoMarkers(lines[1..], !skipping);
      } else {
        assert m == Markers(lines[1..]);
        OutsideHasNoMarkers(lines[1..], skipping);
      }
    }
  }

  lemma {:induction false} OutsideLines(lines: seq<string>, skipping: bool)
    requires AllUnbroken(lines)
    ensures AllUnbroken(Outside(lines, skipping))
  {
    if lines != [] {
      assert NoBreaks(lines[0]);
      assert AllUnbroken(lines[1..]);
      OutsideLines(lines[1..], Strip(lines[0]) == MANAGED_START || (skipping && Strip(lines[0]) != MANAGED_END));
    }
  }

  lemma {:induction false} RStripUnmarked(s: string)
    requires Unmarked(Split(s, '\n'))
    ensures Unmarked(Split(RStrip(s), '\n'))
  {
    if s != [] && IsSpace(s[|s| - 1]) {
      var c := s[|s| - 1];
      var t := s[..|s| - 1];
      assert s == t + [c];
      SplitLast(t, c, '\n');
      var parts := Split(t, '\n');
      forall i | 0 <= i < |parts| ensures !IsMarker(parts[i]) {
        assert !IsMarker(Split(s, '\n')[i]);
        if c != '\n' && i == |parts| - 1 { StripAppend(parts[i], c); }
      }
      RStripUnmarked(t);
    }
  }

  // What is left of a text: newline-separated lines without markers, and no
  // white space at the end.
  lemma StrippedShape(text: string)
    requires WellMarked(text)
    ensures var base := Stripped(text).value; PlainBreaks(base) && Unmarked(Split(base, '\n')) && RStrip(base) == base
  {
    var out := Outside(SplitLines(text), false);
    LinesUnbroken(text);
    OutsideLines(SplitLines(text), false);
    OutsideHasNoMarkers(SplitLines(text), false);
    JoinPlain(out);
    var joined := Join(out, "\n");
    assert Unmarked(Split(joined, '\n')) by {
      MarkerFacts();
      if out == [] {
        assert Split(joined, '\n') == [""];
        assert Strip("") == "";
      } else {
        UnbrokenLack(out);
        SplitJoin(out, '\n');
      }
    }
    RStripUnmarked(joined);
    var base := RStrip(joined);
    assert base <= joined;
  }

  // ---- Rendering ----

  function Hex(d: nat): char
    requires d < 16
  {
    "0123456789abcdef"[d]
  }

  function EscapeChar(c: char): string {
    if c == '"' then "\\\""
    else if c == '\\' then "\\\\"
    else if c == '\n' then "\\n"
    else if c == '\r' then "\\r"
    else if c == '\t' then "\\t"
    else if c == '\U{8}' then "\\b"
    else if c == '\U{C}' then "\\f"
    else if c < ' ' then "\\u00" + [Hex(c as nat / 16), Hex(c as nat % 16)]
    else [c]
  }

  function Escape(s: string): string {
    if s == [] then [] else EscapeChar(s[0]) + Escape(s[1..])
  }

  // `json.dumps(s, ensure_ascii=False)`
  function JsonText(s: string): string { "\"" + Escape(s) + "\"" }

  function HexValue(c: char): Option<nat> {
    if '0' <= c <= '9' then Some(c as nat - '0' as nat)
    else if 'a' <= c <= 'f' then Some(c as nat - 'a' as nat + 10)
    else if 'A' <= c <= 'F' then Some(c as nat - 'A' as nat + 10)
    else None
  }

  function HexNumber(digits: string): Option<nat> {
    if digits == [] then Some(0)
    else
      match (HexNumber(digits[..|digits| - 1]), HexValue(digits[|digits| - 1]))
      case (Some(n), Some(d)) => Some(16 * n + d)
      case _ => None
  }

  // The character after a backslash and how long it is written, by section 7 of RFC 8259.
  function EscapeAt(e: string): Option<(char, nat)> {
    if e == [] then None
    else if e[0] in "\"\\/" then Some((e[0], 1))
    else if e[0] == 'b' then Some(('\U{8}', 1))
    else if e[0] == 'f' then Some(('\U{C}', 1))
    else if e[0] == 'n' then Some(('\n', 1))
    else if e[0] == 'r' then Some(('\r', 1))
    else if e[0] == 't' then Some(('\t', 1))
    else if e[0] == 'u' && |e| >= 5 then
      match HexNumber(e[1..5])
      case Some(n) => if n < 0xD800 || 0xE000 <= n < 0x10000 then Some((n as char, 5)) else None
      case None => None
    else None
  }

  // What a JSON reader makes of the text between the quotes.
  function Unescape(e: string): Option<string>
    decreases |e|
  {
    if e == [] then Some([])
    else if e[0] == '"' || e[0] < ' ' then None
    else
      var first := if e[0] == '\\' then EscapeAt(e[1..]) else Some((e[0], 0));
      match first
      case None => None
      case Some((c, n)) =>
        if 1 + n > |e| then None
        else
          match Unescape(e[1 + n..])
          case None => None
          case Some(rest) => Some([c] + rest)
  }

  lemma HexReads(c: char)
    requires c < ' '
    ensures HexNumber("00" + [Hex(c as nat / 16), Hex(c as nat % 16)]) == Some(c as nat)
  {
    var h, l := Hex(c as nat / 16), Hex(c as nat % 16);
    assert HexValue(h) == Some(c as nat / 16) && HexValue(l) == Some(c as nat % 16);
    var t := "00" + [h, l];
    assert t[..3] == "00" + [h] && ("00" + [h])[..2] == "00" && "00"[..1] == "0" && "0"[..0] == [];
    assert HexNumber("0") == Some(0) && HexNumber("00") == Some(0);
    assert HexNumber("00" + [h]) == Some(c as nat / 16);
  }

  // One written character: itself, or a backslash and what follows it.
  lemma UnescapeStep(e: string, rest: string, c: char)
    requires e != [] && e[0] != '"' && ' ' <= e[0]
    requires if e[0] == '\\' then EscapeAt((e + rest)[1..]) == Some((c, |e| - 1)) else e == [c]
    ensures Unescape(e + rest) == match Unescape(rest) case None => None case Some(s) => Some([c] + s)
  {
    hide EscapeAt;
    assert (e + rest)[|e|..] == rest;
  }

  lemma EscapeAtShort(c: char, rest: string)
    requires c in "\"\\\n\r\t\U{8}\U{C}"
    ensures |EscapeChar(c)| == 2 && EscapeChar(c)[0] == '\\'
    ensures EscapeAt((EscapeChar(c) + rest)[1..]) == Some((c, 1))
  {
    hide HexNumber, Hex;
    assert (EscapeChar(c) + rest)[1..][0] == EscapeChar(c)[1];
  }

  lemma EscapeAtControl(c: char, rest: string)
    requires c < ' ' && c !in "\n\r\t\U{8}\U{C}"
    ensures |EscapeChar(c)| == 6 && EscapeChar(c)[0] == '\\'
    ensures EscapeAt((EscapeChar(c) + rest)[1..]) == Some((c, 5))
  {
    HexReads(c);
    hide HexNumber, Hex;
    var digits := "00" + [Hex(c as nat / 16), Hex(c as nat % 16)];
    assert EscapeChar(c) == "\\u" + digits;
    assert (EscapeChar(c) + rest)[1..][0] == 'u' && (EscapeChar(c) + rest)[1..][1..5] == digits;
  }

  lemma UnescapeChar(c: char, rest: string)
    ensures Unescape(EscapeChar(c) + rest) == match Unescape(rest) case None => None case Some(s) => Some([c] + s)
  {
    hide HexNumber, Hex, Unescape, EscapeAt;
    if c in "\"\\\n\r\t\U{8}\U{C}" {
      EscapeAtShort(c, rest);
    } else if c < ' ' {
      EscapeAtControl(c, rest);
    }
    UnescapeStep(EscapeChar(c), rest, c);
  }

  // Reading a written value gives the value back, whatever characters it has.
  lemma {:induction false} UnescapeEscape(s: string)
    ensures Unescape(Escape(s)) == Some(s)
  {
    if s != [] {
      UnescapeEscape(s[1..]);
      hide EscapeChar, Unescape;
      UnescapeChar(s[0], Escape(s[1..]));
      assert [s[0]] + s[1..] == s;
    } else {
      assert Escape(s) == [];
    }
  }

  // Later lines win.
  function Parse(lines: seq<string>, bind: Binder): map<string, string> {
    if lines == [] then map[]
    else
      var before := Parse(lines[..|lines| - 1], bind);
      match bind(lines[|lines| - 1])
      case Some(s) => before[s.key := s.value]
      case None => before
  }

  function Line(s: Setting): string { s.key + "=" + JsonText(s.value) }

  // The line alone, with its newline, parses back to the setting.
  predicate Stable(s: Setting, bind: Binder) {
    var m := Parse(Split(Line(s) + "\n", '\n'), bind);
    s.key in m && m[s.key] == s.value
  }

  function LinesOf(values: seq<Setting>): seq<string> {
    if values == [] then [] else [Line(values[0])] + LinesOf(values[1..])
  }

  predicate AllStable(values: seq<Setting>, bind: Binder) { forall i :: 0 <= i < |values| ==> Stable(values[i], bind) }

  function Block(values: seq<Setting>): string { Join([MANAGED_START] + LinesOf(values) + [MANAGED_END], "\n") }

  lemma {:induction false} LinesOfAppend(a: seq<Setting>, s: Setting)
    ensures LinesOf(a + [s]) == LinesOf(a) + [Line(s)]
  {
    if a == [] {
      assert a + [s] == [s] && [s][1..] == [];
    } else {
      assert (a + [s])[1..] == a[1..] + [s];
      LinesOfAppend(a[1..], s);
    }
  }

  method RenderManagedBlock(values: seq<Setting>, bind: Binder) returns (r: Outcome<string>)
    ensures r == if AllStable(values, bind) then Done(Block(values)) else Refused(UnstableValue)
  {
    hide MANAGED_START, MANAGED_END, Join, Stable, Line;
    var lines := [MANAGED_START];
    for i := 0 to |values|
      invariant lines == [MANAGED_START] + LinesOf(values[..i])
      invariant forall k :: 0 <= k < i ==> Stable(values[k], bind)
    {
      if !Stable(values[i], bind) { return Refused(UnstableValue); }
      lines := lines + [Line(values[i])];
      LinesOfAppend(values[..i], values[i]);
      assert values[..i] + [values[i]] == values[..i + 1];
    }
    assert values[..|values|] == values;
    lines := lines + [MANAGED_END];
    return Done(Join(lines, "\n"));
  }

  function Around(base: string, block: string): string {
    if base != "" then base + "\n\n" + block + "\n" else block + "\n"
  }

  // The whole update: the outcome for a text and the settings to manage.
  function Updated(text: string, values: seq<Setting>, bind: Binder): Outcome<string> {
    if !WellMarked(text) then Refused(InvalidMarkers)
    else if !AllStable(values, bind) then Refused(UnstableValue)
    else Done(Around(Stripped(text).value, Block(values)))
  }

  method UpdateEnvLocalText(text: string, values: seq<Setting>, bind: Binder) returns (r: Outcome<string>)
    ensures r == Updated(text, values, bind)
  {
    var base := StripManagedBlock(text);
    if base.Refused? { return Refused(base.reason); }
    var block := RenderManagedBlock(values, bind);
    if block.Refused? { return Refused(block.reason); }
    return Done(Around(base.value, block.value));
  }

  // ---- The lines of an updated text ----

  function Terminated(lines: seq<string>): string {
    if lines == [] then "" else lines[0] + "\n" + Terminated(lines[1..])
  }

  lemma {:induction false} JoinTerminated(lines: seq<string>)
    requires lines != []
    ensures Join(lines, "\n") + "\n" == Terminated(lines)
  {
    if |lines| > 1 {
      JoinTerminated(lines[1..]);
      assert Terminated(lines) == lines[0] + "\n" + (Join(lines[1..], "\n") + "\n");
    } else {
      assert Terminated(lines) == lines[0] + "\n" + "";
    }
  }

  lemma {:induction false} TerminatedConcat(a: seq<string>, b: seq<string>)
    ensures Terminated(a + b) == Terminated(a) + Terminated(b)
    ensures a != [] ==> Terminated(a) != [] && Terminated(a)[|Terminated(a)| - 1] == '\n'
  {
    if a == [] {
      assert a + b == b && Terminated(a) == "";
    } else {
      assert (a + b)[1..] == a[1..] + b;
      TerminatedConcat(a[1..], b);
      var p := a[0] + "\n";
      assert p + (Terminated(a[1..]) + Terminated(b)) == p + Terminated(a[1..]) + Terminated(b);
      if a[1..] == [] { assert Terminated(a) == p; }
    }
  }

  lemma TerminatedAppend(a: seq<string>, b: seq<string>)
    ensures Terminated(a + b) == Terminated(a) + Terminated(b)
    ensures SplitLines(Terminated(a + b)) == SplitLines(Terminated(a)) + SplitLines(Terminated(b))
  {
    TerminatedConcat(a, b);
    if a == [] {
      assert a + b == b && SplitLines(Terminated(a)) == [];
    } else {
      LinesAppend(Terminated(a), Terminated(b));
    }
  }

  lemma OneLine(line: string)
    requires NoBreaks(line)
    ensures SplitLines(Terminated([line])) == [line]
  {
    PlainLines(line);
    SplitWhole(line, '\n');
    assert Terminated([line]) == line + "\n" + "" == line + "\n";
  }

  // The lines between the markers of an updated text.
  function Inner(values: seq<Setting>): seq<string> { SplitLines(Terminated(LinesOf(values))) }

  function Above(base: string): seq<string> { if base == "" then [] else Split(base, '\n') + [""] }

  lemma BlockLines(values: seq<Setting>)
    ensures SplitLines(Block(values) + "\n") == [MANAGED_START] + Inner(values) + [MANAGED_END]
  {
    hide MANAGED_START, MANAGED_END;
    MarkerFacts();
    JoinTerminated([MANAGED_START] + LinesOf(values) + [MANAGED_END]);
    TerminatedAppend([MANAGED_START] + LinesOf(values), [MANAGED_END]);
    TerminatedAppend([MANAGED_START], LinesOf(values));
    OneLine(MANAGED_START);
    OneLine(MANAGED_END);
  }

  lemma BlankLine(rest: string)
    ensures SplitLines("\n" + rest) == [""] + SplitLines(rest)
  {
    assert ("\n" + rest)[1..] == rest;
  }

  lemma AroundIs(base: string, block: string)
    requires base != ""
    ensures Around(base, block) == (base + "\n") + ("\n" + (block + "\n"))
  {
    assert base + "\n\n" == base + "\n" + "\n";
  }

  lemma AroundLines(base: string, block: string)
    requires PlainBreaks(base)
    ensures SplitLines(Around(base, block)) == Above(base) + SplitLines(block + "\n")
  {
    hide SplitLines, Split, PlainBreaks;
    var rest := block + "\n";
    if base == "" {
      assert [] + SplitLines(rest) == SplitLines(rest);
    } else {
      hide Around;
      AroundIs(base, block);
      LinesAppend(base + "\n", "\n" + rest);
      PlainLines(base);
      BlankLine(rest);
      Regroup(Split(base, '\n'), [""], SplitLines(rest));
    }
  }

  lemma AboveUnmarked(base: string)
    requires Unmarked(Split(base, '\n'))
    ensures Unmarked(Above(base))
  {
    MarkerFacts();
    assert Strip("") == "";
  }

  lemma JoinAbove(base: string)
    requires RStrip(base) == base
    ensures RStrip(Join(Above(base), "\n")) == base
  {
    if base != "" {
      JoinSplit(base, '\n');
      JoinAppend(Split(base, '\n'), [""], "\n");
      assert Join(Above(base), "\n") == base + "\n";
      assert (base + "\n")[..|base|] == base;
    }
  }

  lemma MarkersOfUpdated(above: seq<string>, inner: seq<string>)
    requires Unmarked(above)
    ensures Markers(above + ([MANAGED_START] + inner + [MANAGED_END])) == [MANAGED_START] + Markers(inner) + [MANAGED_END]
    ensures Unmarked(inner) <==> [MANAGED_START] + Markers(inner) + [MANAGED_END] == [MANAGED_START, MANAGED_END]
    ensures [MANAGED_START] + Markers(inner) + [MANAGED_END] != []
  {
    hide MANAGED_START, MANAGED_END, Strip, Unmarked;
    MarkerFacts();
    UnmarkedIff(above);
    UnmarkedIff(inner);
    MarkersAppend(above, [MANAGED_START] + inner + [MANAGED_END]);
    MarkersAppend([MANAGED_START] + inner, [MANAGED_END]);
    MarkersAppend([MANAGED_START], inner);
  }

  lemma OutsideOfUpdated(above: seq<string>, inner: seq<string>)
    requires Unmarked(above) && Unmarked(inner)
    ensures Outside(above + ([MANAGED_START] + inner + [MANAGED_END]), false) == above
  {
    hide MANAGED_START, MANAGED_END, Strip, Unmarked;
    MarkerFacts();
    assert Unmarked([]) by { UnmarkedIff([]); }
    BlockRemoved(above, MANAGED_START, inner, MANAGED_END, []);
    assert [MANAGED_START] + inner + [MANAGED_END] == [MANAGED_START] + (inner + ([MANAGED_END] + []));
    assert above + [] == above;
  }

  lemma WellMarkedIff(text: string)
    ensures var m := Markers(SplitLines(text)); WellMarked(text) <==> m == [] || m == [MANAGED_START, MANAGED_END]
  {
  }

  lemma StrippedIs(text: string)
    requires WellMarked(text)
    ensures Stripped(text) == Done(RStrip(Join(Outside(SplitLines(text), false), "\n")))
  {
  }

  // Updating keeps what stripping keeps, exactly when no line of a managed
  // value is itself a marker.
  lemma StripUpdated(text: string, values: seq<Setting>, bind: Binder)
    requires Updated(text, values, bind).Done?
    ensures WellMarked(Updated(text, values, bind).value) <==> Unmarked(Inner(values))
    ensures Unmarked(Inner(values)) ==> Stripped(Updated(text, values, bind).value) == Stripped(text)
  {
    hide WellMarked, SplitLines, Outside, Join, RStrip, Strip, IsMarker, Block, Inner, Above, Around, AllStable;
    var base := Stripped(text).value;
    var u := Updated(text, values, bind).value;
    StrippedShape(text);
    AroundLines(base, Block(values));
    BlockLines(values);
    AboveUnmarked(base);
    MarkersOfUpdated(Above(base), Inner(values));
    assert SplitLines(u) == Above(base) + ([MANAGED_START] + Inner(values) + [MANAGED_END]);
    if Unmarked(Inner(values)) {
      WellMarkedIff(u);
      OutsideOfUpdated(Above(base), Inner(values));
      StrippedIs(u);
      JoinAbove(base);
    } else {
      WellMarkedIff(u);
    }
  }
}
