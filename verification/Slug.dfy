// Two ways of making a code out of a message, and why they agree
// (scripts/report_ignored_file_cleanup_plan.py, lines 323-330, and
// app/api/actions.py, lines 1065-1070).
module Slug {
  import opened Text

  // `isAlnum` is `str.isalnum` of a character and `fold` its case folding.
  function Mapped(s: string, isAlnum: char -> bool, fold: char -> string): string {
    if s == [] then [] else Masked(fold(s[0]), isAlnum) + Mapped(s[1..], isAlnum, fold)
  }

  function Masked(s: string, isAlnum: char -> bool): string {
    if s == [] then [] else [if isAlnum(s[0]) then s[0] else '_'] + Masked(s[1..], isAlnum)
  }

  function NonEmpty(parts: seq<string>): seq<string> {
    if parts == [] then []
    else (if parts[0] != "" then [parts[0]] else []) + NonEmpty(parts[1..])
  }

  // The words between underscores, and the code they make.
  function Words(s: string): seq<string> { NonEmpty(Split(s, '_')) }

  function Code(s: string): string { Join(Words(s), "_") }

  function LeftBare(s: string): string { if s != [] && s[0] == '_' then LeftBare(s[1..]) else s }

  function RightBare(s: string): (r: string)
    ensures r <= s
  {
    if s != [] && s[|s| - 1] == '_' then RightBare(s[..|s| - 1]) else s
  }

  // `s.strip("_")`
  function Bare(s: string): string { RightBare(LeftBare(s)) }

  predicate HasDouble(s: string) { |s| >= 2 && (s[..2] == "__" || HasDouble(s[1..])) }

  // `s.replace("__", "_")`: occurrences from the left, not overlapping.
  function Replaced(s: string): (r: string)
    ensures |r| <= |s|
    ensures HasDouble(s) ==> |r| < |s|
  {
    if |s| < 2 then s
    else if s[..2] == "__" then "_" + Replaced(s[2..])
    else [s[0]] + Replaced(s[1..])
  }

  // ---- Words do not see repeated or outer underscores ----

  ghost predicate SameWords(s: string, t: string) {
    && Split(s, '_')[0] == Split(t, '_')[0]
    && NonEmpty(Split(s, '_')[1..]) == NonEmpty(Split(t, '_')[1..])
  }

  lemma SameWordsSame(s: string, t: string)
    requires SameWords(s, t)
    ensures Words(s) == Words(t)
  {
  }

  lemma LeadingUnderscore(s: string)
    ensures Split("_" + s, '_') == [""] + Split(s, '_')
    ensures Words("_" + s) == Words(s)
  {
    assert ("_" + s)[1..] == s;
    assert ([""] + Split(s, '_'))[1..] == Split(s, '_');
  }

  lemma {:induction false} ReplacedSame(s: string)
    ensures SameWords(s, Replaced(s))
    decreases |s|
  {
    if |s| < 2 {
    } else if s[..2] == "__" {
      ReplacedSame(s[2..]);
      SameWordsSame(s[2..], Replaced(s[2..]));
      assert s == "_" + ("_" + s[2..]);
      LeadingUnderscore("_" + s[2..]);
      LeadingUnderscore(s[2..]);
      LeadingUnderscore(Replaced(s[2..]));
    } else {
      ReplacedSame(s[1..]);
      var rest := Replaced(s[1..]);
      assert Replaced(s)[1..] == rest;
      if s[0] == '_' {
        SameWordsSame(s[1..], rest);
        assert s == "_" + s[1..];
        LeadingUnderscore(s[1..]);
        LeadingUnderscore(rest);
      }
    }
  }

  lemma {:induction false} NonEmptyAppend(a: seq<string>, b: seq<string>)
    ensures NonEmpty(a + b) == NonEmpty(a) + NonEmpty(b)
  {
    if a == [] {
      assert a + b == b;
    } else {
      assert (a + b)[1..] == a[1..] + b;
      NonEmptyAppend(a[1..], b);
    }
  }

  lemma {:induction false} TrailingUnderscore(s: string)
    ensures Words(s + "_") == Words(s)
  {
    SplitTrailing(s);
    NonEmptyAppend(Split(s, '_'), [""]);
  }

  lemma {:induction false} SplitTrailing(s: string)
    ensures Split(s + "_", '_') == Split(s, '_') + [""]
  {
    if s == [] {
      LeadingUnderscore("");
      assert s + "_" == "_" + "";
    } else {
      assert (s + "_")[1..] == s[1..] + "_";
      SplitTrailing(s[1..]);
    }
  }

  lemma {:induction false} LeftBareWords(s: string)
    ensures Words(LeftBare(s)) == Words(s)
    ensures LeftBare(s) != [] ==> LeftBare(s)[0] != '_'
  {
    if s != [] && s[0] == '_' {
      LeftBareWords(s[1..]);
      LeadingUnderscore(s[1..]);
      assert s == "_" + s[1..];
    }
  }

  lemma {:induction false} RightBareWords(s: string)
    ensures Words(RightBare(s)) == Words(s)
    ensures RightBare(s) != [] ==> RightBare(s)[|RightBare(s)| - 1] != '_'
  {
    hide Words;
    if s != [] && s[|s| - 1] == '_' {
      var t := s[..|s| - 1];
      assert s == t + "_";
      TrailingUnderscore(t);
      RightBareWords(t);
      assert RightBare(s) == RightBare(t);
    } else {
      assert RightBare(s) == s;
    }
  }

  // ---- What the loop ends with ----

  // No underscore at either end.
  predicate Trim(s: string) { s != [] ==> s[0] != '_' && s[|s| - 1] != '_' }

  lemma {:induction false} ReplacedTrim(s: string)
    requires s != []
    ensures Replaced(s) != [] && Replaced(s)[0] == s[0] && Replaced(s)[|Replaced(s)| - 1] == s[|s| - 1]
    decreases |s|
  {
    if |s| < 2 {
    } else if s[..2] == "__" {
      if |s| > 2 { ReplacedTrim(s[2..]); }
    } else {
      ReplacedTrim(s[1..]);
    }
  }

  lemma {:induction false} PartsNonEmpty(s: string)
    requires s != [] && !HasDouble(s) && s[|s| - 1] != '_'
    ensures var parts := Split(s, '_');
            NonEmpty(parts[1..]) == parts[1..] && (parts[0] == "" <==> s[0] == '_')
    decreases |s|
  {
    if |s| > 1 {
      PartsNonEmpty(s[1..]);
      if s[0] == '_' { assert s[..2] != "__"; assert s[1] != '_'; }
    }
  }

  // A text with single inner underscores only is the code of its words.
  lemma Canonical(s: string)
    requires Trim(s) && !HasDouble(s)
    ensures Code(s) == s
  {
    if s == [] {
      assert [""][1..] == [];
    } else {
      PartsNonEmpty(s);
      JoinSplit(s, '_');
    }
  }

  method SafeReasonCode(value: string, isAlnum: char -> bool, fold: char -> string) returns (r: string)
    ensures var code := Code(Mapped(value, isAlnum, fold));
            r == if code == "" then "ignored_file_cleanup_plan_failed" else code
  {
    var mapped := Mapped(value, isAlnum, fold);
    var cleaned := Bare(mapped);
    LeftBareWords(mapped);
    RightBareWords(LeftBare(mapped));
    while HasDouble(cleaned)
      invariant Trim(cleaned) && Words(cleaned) == Words(mapped)
      decreases |cleaned|
    {
      ReplacedSame(cleaned);
      SameWordsSame(cleaned, Replaced(cleaned));
      ReplacedTrim(cleaned);
      cleaned := Replaced(cleaned);
    }
    Canonical(cleaned);
    r := if cleaned == "" then "ignored_file_cleanup_plan_failed" else cleaned;
  }

  function Folded(s: string, fold: char -> string): string {
    if s == [] then [] else fold(s[0]) + Folded(s[1..], fold)
  }

  function AuditErrorCode(message: string, isAlnum: char -> bool, fold: char -> string): string {
    if Contains(Folded(Strip(message), fold), "secret-like key") then "payload_contains_secret_like_key"
    else
      var code := Code(Mapped(Strip(message), isAlnum, fold));
      var cut := if |code| > 120 then code[..120] else code;
      if cut == "" then "blocked" else cut
  }

  // The special case: a message about a secret-like key, whatever else it says.
  lemma SecretLikeCode(before: string, behind: string, message: string, isAlnum: char -> bool, fold: char -> string)
    requires Folded(Strip(message), fold) == before + "secret-like key" + behind
    ensures AuditErrorCode(message, isAlnum, fold) == "payload_contains_" + "secret_like_key"
  {
    ContainsMiddle(before, "secret-like key", behind);
    hide Strip, Contains, Code, Mapped, Folded;
    assert "payload_contains_" + "secret_like_key" == "payload_contains_secret_like_key";
  }

  // White space folds to itself and is not alphanumeric.
  ghost predicate PlainSpace(isAlnum: char -> bool, fold: char -> string) {
    forall c: char :: IsSpace(c) ==> fold(c) == [c] && !isAlnum(c)
  }

  lemma {:induction false} MappedAppend(a: string, b: string, isAlnum: char -> bool, fold: char -> string)
    ensures Mapped(a + b, isAlnum, fold) == Mapped(a, isAlnum, fold) + Mapped(b, isAlnum, fold)
  {
    if a == [] {
      assert a + b == b;
    } else {
      assert (a + b)[1..] == a[1..] + b;
      MappedAppend(a[1..], b, isAlnum, fold);
    }
  }

  lemma SpaceMapped(c: char, isAlnum: char -> bool, fold: char -> string)
    requires PlainSpace(isAlnum, fold) && IsSpace(c)
    ensures Mapped([c], isAlnum, fold) == "_"
  {
    assert fold(c) == [c] && [c][1..] == [];
    assert Masked([c], isAlnum) == ['_'] + Masked([], isAlnum);
    assert Mapped([c], isAlnum, fold) == Masked([c], isAlnum) + Mapped([], isAlnum, fold);
  }

  lemma {:induction false} LStripCode(s: string, isAlnum: char -> bool, fold: char -> string)
    requires PlainSpace(isAlnum, fold)
    ensures Words(Mapped(LStrip(s), isAlnum, fold)) == Words(Mapped(s, isAlnum, fold))
  {
    if s != [] && IsSpace(s[0]) {
      LStripCode(s[1..], isAlnum, fold);
      SpaceMapped(s[0], isAlnum, fold);
      assert s == [s[0]] + s[1..];
      MappedAppend([s[0]], s[1..], isAlnum, fold);
      LeadingUnderscore(Mapped(s[1..], isAlnum, fold));
    }
  }

  lemma {:induction false} RStripCode(s: string, isAlnum: char -> bool, fold: char -> string)
    requires PlainSpace(isAlnum, fold)
    ensures Words(Mapped(RStrip(s), isAlnum, fold)) == Words(Mapped(s, isAlnum, fold))
  {
    if s != [] && IsSpace(s[|s| - 1]) {
      var n := |s| - 1;
      RStripCode(s[..n], isAlnum, fold);
      SpaceMapped(s[n], isAlnum, fold);
      assert s == s[..n] + [s[n]];
      MappedAppend(s[..n], [s[n]], isAlnum, fold);
      TrailingUnderscore(Mapped(s[..n], isAlnum, fold));
    }
  }

  // Stripping the message first makes no difference: away from its special
  // case the audit code is the cleanup plan's code, cut to 120 characters.
  lemma CodesAgree(message: string, isAlnum: char -> bool, fold: char -> string)
    requires PlainSpace(isAlnum, fold) && !Contains(Folded(Strip(message), fold), "secret-like key")
    ensures var code := Code(Mapped(message, isAlnum, fold));
            AuditErrorCode(message, isAlnum, fold)
            == if code == "" then "blocked" else if |code| > 120 then code[..120] else code
  {
    LStripCode(message, isAlnum, fold);
    RStripCode(LStrip(message), isAlnum, fold);
  }

  lemma {:induction false} NonEmptyParts(parts: seq<string>)
    requires AllLack(parts, '_')
    ensures AllLack(NonEmpty(parts), '_') && NonEmpty(NonEmpty(parts)) == NonEmpty(parts)
  {
    if parts != [] {
      hide Lacks;
      assert Lacks(parts[0], '_');
      NonEmptyParts(parts[1..]);
      if parts[0] != "" {
        assert NonEmpty(parts)[1..] == NonEmpty(parts[1..]);
      } else {
        assert NonEmpty(parts) == NonEmpty(parts[1..]);
      }
    }
  }

  // A code is its own code.
  lemma CodeOfCode(s: string)
    ensures Code(Code(s)) == Code(s)
  {
    SplitParts(s, '_');
    NonEmptyParts(Split(s, '_'));
    if Words(s) == [] {
      assert Split("", '_') == [""] && [""][1..] == [] && NonEmpty([""]) == [];
    } else {
      SplitJoin(Words(s), '_');
    }
  }
}
