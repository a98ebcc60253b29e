/** Labels and identifiers of Helios controllers: src/helios/HeliosManager.cpp.

Two of its loops have no bound: they try numbered candidates until one is free. They end because
the candidates are pairwise different and the set in use is finite. */
module HeliosLabels {
  import opened Arithmetic
  import opened Decimal

  const MAX_NAME_LENGTH: nat := 30

  function Truncated(name: string): (r: string)
    ensures |r| <= MAX_NAME_LENGTH
  {
    if |name| <= MAX_NAME_LENGTH then name else name[..MAX_NAME_LENGTH]
  }

  function GenericName(index: nat): (r: string)
    ensures 1 <= |r| <= MAX_NAME_LENGTH
  {
    Truncated("helios " + Numeral(index))
  }

  function WithoutTrailingSpaces(s: string): (r: string)
    ensures |r| <= |s|
  {
    if s != [] && s[|s| - 1] == ' ' then WithoutTrailingSpaces(s[..|s| - 1]) else s
  }

  function SuffixLabel(suffix: nat): string { " (" + Numeral(suffix) + ")" }

  /** The base shortened so that `room` characters are enough. */
  function ShortenedBase(index: nat, base: string, room: nat): (r: string)
    requires base != []
    ensures |r| <= room
  {
    if |base| <= room then base
    else
      var cut := WithoutTrailingSpaces(base[..room]);
      if cut != [] then cut
      else
        var generic := GenericName(index);
        if |generic| > room then generic[..room] else generic
  }

  function BaseName(index: nat, preferred: string): (r: string)
    ensures 1 <= |r| <= MAX_NAME_LENGTH
  {
    if Truncated(preferred) == [] then GenericName(index) else Truncated(preferred)
  }

  function WithSuffix(index: nat, preferred: string, suffix: nat): (r: string)
    ensures |r| <= MAX_NAME_LENGTH
  {
    var base := BaseName(index, preferred);
    var suffixLabel := SuffixLabel(suffix);
    if |suffixLabel| >= MAX_NAME_LENGTH then Truncated(base)
    else ShortenedBase(index, base, MAX_NAME_LENGTH - |suffixLabel|) + suffixLabel
  }

  method MakeWithSuffix(index: nat, preferred: string, suffix: nat) returns (name: string)
    ensures name == WithSuffix(index, preferred, suffix) && |name| <= MAX_NAME_LENGTH
  {
    var base := Truncated(preferred);
    if base == [] {
      base := GenericName(index);
    }
    var suffixLabel := SuffixLabel(suffix);
    if |suffixLabel| >= MAX_NAME_LENGTH {
      return Truncated(base);
    }
    var maxBaseLength := MAX_NAME_LENGTH - |suffixLabel|;
    if |base| > maxBaseLength {
      base := base[..maxBaseLength];
      ghost var cut := base;
      while base != [] && base[|base| - 1] == ' '
        invariant |base| <= maxBaseLength
        invariant WithoutTrailingSpaces(base) == WithoutTrailingSpaces(cut)
        decreases |base|
      {
        base := base[..|base| - 1];
      }
      if base == [] {
        base := GenericName(index);
        if |base| > maxBaseLength {
          base := base[..maxBaseLength];
        }
      }
    }
    return base + suffixLabel;
  }

  // ----- numbered candidates are different -----

  lemma SuffixLabelIsShort(suffix: nat)
    requires suffix <= INT_MAX
    ensures |SuffixLabel(suffix)| <= 13
  {
    assert Power10(10) == 10_000_000_000 by {
      assert Power10(5) == 100_000;
      assert Power10(10) == 100_000 * Power10(5);
    }
    NumeralLength(suffix, 10, Power10(10));
  }

  lemma ShorterNumberEndsDifferently(x: string, y: string, s: nat, t: nat)
    requires |Numeral(s)| < |Numeral(t)|
    ensures x + SuffixLabel(s) != y + SuffixLabel(t)
  {
    var a, b := x + SuffixLabel(s), y + SuffixLabel(t);
    if |a| == |b| {
      var m, n := |Numeral(s)|, |Numeral(t)|;
      var i := |a| - 2 - m;
      assert a[i] == '(' && !IsDigit('(');
      assert b[i] == Numeral(t)[n - m - 1] && IsDigit(b[i]);
    }
  }

  /** The number can be read off the end of a label. */
  lemma SuffixCanBeReadOff(x: string, y: string, s: nat, t: nat)
    requires x + SuffixLabel(s) == y + SuffixLabel(t)
    ensures s == t
  {
    hide Numeral;
    var a, b := x + SuffixLabel(s), y + SuffixLabel(t);
    var m, n := |Numeral(s)|, |Numeral(t)|;
    if m < n {
      ShorterNumberEndsDifferently(x, y, s, t);
    } else if n < m {
      ShorterNumberEndsDifferently(y, x, t, s);
    } else {
      assert a[|a| - 1 - m..|a| - 1] == Numeral(s);
      assert b[|b| - 1 - n..|b| - 1] == Numeral(t);
      NumeralInjective(s, t);
    }
  }

  lemma CandidatesDiffer(index: nat, preferred: string, s: nat, t: nat)
    requires s <= INT_MAX && t <= INT_MAX && s != t
    ensures WithSuffix(index, preferred, s) != WithSuffix(index, preferred, t)
  {
    hide SuffixLabel, ShortenedBase;
    SuffixLabelIsShort(s);
    SuffixLabelIsShort(t);
    var base := BaseName(index, preferred);
    var x := ShortenedBase(index, base, MAX_NAME_LENGTH - |SuffixLabel(s)|);
    var y := ShortenedBase(index, base, MAX_NAME_LENGTH - |SuffixLabel(t)|);
    if x + SuffixLabel(s) == y + SuffixLabel(t) {
      SuffixCanBeReadOff(x, y, s, t);
    }
  }

  // ----- labels in characters -----

  /** A preferred name of up to 30 characters is taken as it is, and numbered if there is room. */
  lemma ShortNamesAreKept(index: nat, preferred: string, suffix: nat)
    requires 1 <= |preferred| <= 30
    ensures BaseName(index, preferred) == preferred
    ensures |preferred| + |SuffixLabel(suffix)| <= 30 ==>
              WithSuffix(index, preferred, suffix) == preferred + " (" + Numeral(suffix) + ")"
  {
    hide Numeral;
    assert preferred + (" (" + Numeral(suffix) + ")") == preferred + " (" + Numeral(suffix) + ")";
  }

  /** A longer one is cut so that the label has 30 characters, less the spaces that the cut would leave
      before the number. */
  lemma LongNamesAreCut(index: nat, preferred: string, suffix: nat) returns (k: nat)
    requires |SuffixLabel(suffix)| < 30 && |preferred| > 30 - |SuffixLabel(suffix)|
    requires exists j :: 0 <= j < 30 - |SuffixLabel(suffix)| && preferred[j] != ' '
    ensures 0 < k <= 30 - |SuffixLabel(suffix)| && preferred[k - 1] != ' '
    ensures forall j :: k <= j < 30 - |SuffixLabel(suffix)| ==> preferred[j] == ' '
    ensures WithSuffix(index, preferred, suffix) == preferred[..k] + SuffixLabel(suffix)
  {
    assert |SuffixLabel(suffix)| > 0;
    hide SuffixLabel;
    var room := 30 - |SuffixLabel(suffix)|;
    var base := Truncated(preferred);
    assert base[..room] == preferred[..room];
    k := TrimmedAt(preferred[..room]);
    assert preferred[..room][..k] == preferred[..k];
  }

  lemma {:induction false} TrimmedAt(s: string) returns (k: nat)
    requires exists j :: 0 <= j < |s| && s[j] != ' '
    ensures 0 < k <= |s| && s[k - 1] != ' ' && forall j :: k <= j < |s| ==> s[j] == ' '
    ensures WithoutTrailingSpaces(s) == s[..k]
    decreases |s|
  {
    var n := |s| - 1;
    if s[n] == ' ' {
      var j :| 0 <= j < |s| && s[j] != ' ';
      assert s[..n][j] != ' ';
      k := TrimmedAt(s[..n]);
      assert s[..n][..k] == s[..k];
    } else {
      k := |s|;
      assert s[..k] == s;
    }
  }

  lemma {:induction false} SubsetIsNoLarger<T>(a: set<T>, b: set<T>)
    requires a <= b
    ensures |a| <= |b|
    decreases a
  {
    if a != {} {
      var x :| x in a;
      SubsetIsNoLarger(a - {x}, b - {x});
    }
  }

  // ----- renaming -----

  predicate Free(candidate: string, current: string, used: set<string>)
  {
    candidate != Truncated(current) && candidate !in used
  }

  /** The n-th candidate: the plain name, then the name numbered from 2. */
  function Candidate(index: nat, preferred: string, n: nat): (r: string)
    ensures |r| <= MAX_NAME_LENGTH
  {
    if n == 0 then BaseName(index, preferred) else WithSuffix(index, preferred, n + 1)
  }

  /** The first free candidate. Fewer candidates than labels in use are passed over, counting the
      current one among them: the loop ends. */
  method MakeUniqueRenameLabel(index: nat, preferred: string, current: string, used: set<string>)
    returns (name: string, ghost n: nat)
    requires |used| + 4 <= INT_MAX
    ensures |name| <= MAX_NAME_LENGTH && name != Truncated(current) && name !in used
    ensures name == Candidate(index, preferred, n) && n <= |used| + 2
    ensures forall m :: 0 <= m < n ==> !Free(Candidate(index, preferred, m), current, used)
  {
    hide WithSuffix;
    name := Truncated(preferred);
    if name == [] {
      name := GenericName(index);
    }
    n := 0;
    if name != Truncated(current) && name !in used {
      return;
    }
    var suffix := 2;
    ghost var taken := used + {Truncated(current)};
    ghost var rejected: set<string> := {};
    while true
      invariant 2 <= suffix && rejected <= taken && |rejected| == suffix - 2
      invariant |taken| <= |used| + 1 && suffix <= |used| + 3
      invariant forall x :: x in rejected ==>
                  exists k: nat :: 2 <= k < suffix && x == WithSuffix(index, preferred, k)
      invariant forall m :: 0 <= m < suffix - 1 ==> !Free(Candidate(index, preferred, m), current, used)
      decreases |used| + 3 - suffix
    {
      name := MakeWithSuffix(index, preferred, suffix);
      if name != Truncated(current) && name !in used {
        n := suffix - 1;
        return;
      }
      if name in rejected {
        var k: nat :| 2 <= k < suffix && name == WithSuffix(index, preferred, k);
        CandidatesDiffer(index, preferred, k, suffix);
        assert false;
      }
      rejected := rejected + {name};
      SubsetIsNoLarger(rejected, taken);
      assert Candidate(index, preferred, suffix - 1) == name;
      suffix := suffix + 1;
    }
  }

  // ----- identifiers -----

  predicate IsUpper(c: char) { 'A' <= c <= 'Z' }

  predicate IsLower(c: char) { 'a' <= c <= 'z' }

  predicate IsAlnum(c: char) { IsUpper(c) || IsLower(c) || IsDigit(c) }

  function ToLower(c: char): char { if IsUpper(c) then c - 'A' + 'a' else c }

  predicate IsSeparator(c: char) { c == ' ' || c == '-' || c == '_' || c == '.' }

  /** A letter or digit in lower case, a separator as a dash, anything else dropped. */
  function MappedChar(c: char): string
  {
    if IsAlnum(c) then [ToLower(c)] else if IsSeparator(c) then "-" else []
  }

  function Mapped(text: string): string
  {
    if text == [] then [] else Mapped(text[..|text| - 1]) + MappedChar(text[|text| - 1])
  }

  function Collapsed(s: string): string
  {
    if s == [] then []
    else
      var front, c := s[..|s| - 1], s[|s| - 1];
      if c == '-' && front != [] && front[|front| - 1] == '-' then Collapsed(front)
      else Collapsed(front) + [c]
  }

  function TrimmedFront(s: string): string
  {
    if s != [] && s[0] == '-' then TrimmedFront(s[1..]) else s
  }

  function TrimmedBack(s: string): string
  {
    if s != [] && s[|s| - 1] == '-' then TrimmedBack(s[..|s| - 1]) else s
  }

  function Sanitized(text: string): string { TrimmedBack(TrimmedFront(Collapsed(Mapped(text)))) }

  method SanitizeIdComponent(text: string) returns (r: string)
    ensures r == Sanitized(text) && IsClean(r)
  {
    var out := "";
    for i := 0 to |text|
      invariant out == Mapped(text[..i])
    {
      assert text[..i + 1][..i] == text[..i];
      if IsAlnum(text[i]) {
        out := out + [ToLower(text[i])];
      } else if IsSeparator(text[i]) {
        out := out + "-";
      }
    }
    assert text[..|text|] == text;
    var collapsed := "";
    var previousDash := false;
    for i := 0 to |out|
      invariant collapsed == Collapsed(out[..i])
      invariant previousDash <==> i > 0 && out[i - 1] == '-'
    {
      assert out[..i + 1][..i] == out[..i];
      if out[i] == '-' {
        if !previousDash {
          collapsed := collapsed + [out[i]];
        }
        previousDash := true;
      } else {
        collapsed := collapsed + [out[i]];
        previousDash := false;
      }
    }
    assert out[..|out|] == out;
    r := collapsed;
    while r != [] && r[0] == '-'
      invariant TrimmedFront(r) == TrimmedFront(collapsed)
      decreases |r|
    {
      r := r[1..];
    }
    ghost var trimmed := r;
    while r != [] && r[|r| - 1] == '-'
      invariant TrimmedBack(r) == TrimmedBack(trimmed)
      decreases |r|
    {
      r := r[..|r| - 1];
    }
    SanitizedIsClean(text);
  }

  ghost predicate IdCharacters(s: string)
  {
    forall i :: 0 <= i < |s| ==> IsLower(s[i]) || IsDigit(s[i]) || s[i] == '-'
  }

  ghost predicate NoDoubleDash(s: string)
  {
    forall i :: 0 <= i < |s| - 1 ==> s[i] != '-' || s[i + 1] != '-'
  }

  /** Lower-case letters, digits and single dashes, none of them at an end. */
  ghost predicate IsClean(s: string)
  {
    && IdCharacters(s) && NoDoubleDash(s)
    && (s != [] ==> s[0] != '-' && s[|s| - 1] != '-')
  }

  lemma MappedCharIsIdCharacters(c: char)
    ensures IdCharacters(MappedChar(c))
  {
  }

  lemma {:induction false} MappedCharacters(text: string)
    ensures IdCharacters(Mapped(text))
    decreases |text|
  {
    hide MappedChar, IsLower, IsDigit;
    if text != [] {
      MappedCharacters(text[..|text| - 1]);
      MappedCharIsIdCharacters(text[|text| - 1]);
    }
  }

  lemma {:induction false} CollapsedHasNoDoubleDash(s: string)
    requires IdCharacters(s)
    ensures IdCharacters(Collapsed(s)) && NoDoubleDash(Collapsed(s))
    ensures s != [] ==> Collapsed(s) != [] && Collapsed(s)[|Collapsed(s)| - 1] == s[|s| - 1]
    decreases |s|
  {
    if s != [] {
      CollapsedHasNoDoubleDash(s[..|s| - 1]);
    }
  }

  lemma {:induction false} TrimmedFrontKeeps(s: string)
    requires IdCharacters(s) && NoDoubleDash(s)
    ensures IdCharacters(TrimmedFront(s)) && NoDoubleDash(TrimmedFront(s))
    ensures TrimmedFront(s) != [] ==> TrimmedFront(s)[0] != '-'
    decreases |s|
  {
    if s != [] && s[0] == '-' {
      forall i | 0 <= i < |s[1..]| - 1
        ensures s[1..][i] != '-' || s[1..][i + 1] != '-'
      {
        assert s[i + 1] != '-' || s[i + 2] != '-';
      }
      TrimmedFrontKeeps(s[1..]);
    }
  }

  lemma {:induction false} TrimmedBackKeeps(s: string)
    requires IdCharacters(s) && NoDoubleDash(s) && (s != [] ==> s[0] != '-')
    ensures IsClean(TrimmedBack(s))
    decreases |s|
  {
    if s != [] && s[|s| - 1] == '-' {
      TrimmedBackKeeps(s[..|s| - 1]);
    }
  }

  lemma SanitizedIsClean(text: string)
    ensures IsClean(Sanitized(text))
  {
    MappedCharacters(text);
    CollapsedHasNoDoubleDash(Mapped(text));
    TrimmedFrontKeeps(Collapsed(Mapped(text)));
    TrimmedBackKeeps(TrimmedFront(Collapsed(Mapped(text))));
  }

  lemma MappedCharKeepsIdCharacter(c: char)
    requires IsLower(c) || IsDigit(c) || c == '-'
    ensures MappedChar(c) == [c]
  {
  }

  lemma {:induction false} MappedKeepsIdCharacters(s: string)
    requires IdCharacters(s)
    ensures Mapped(s) == s
    decreases |s|
  {
    hide MappedChar, IsLower, IsDigit;
    if s != [] {
      var n := |s| - 1;
      MappedKeepsIdCharacters(s[..n]);
      MappedCharKeepsIdCharacter(s[n]);
      assert s == s[..n] + [s[n]];
    }
  }

  lemma {:induction false} CollapsedKeepsSingleDashes(s: string)
    requires NoDoubleDash(s)
    ensures Collapsed(s) == s
    decreases |s|
  {
    if s != [] {
      CollapsedKeepsSingleDashes(s[..|s| - 1]);
      assert s == s[..|s| - 1] + [s[|s| - 1]];
    }
  }

  /** The clean strings are exactly those that sanitizing leaves alone. */
  lemma CleanIsAFixedPoint(s: string)
    ensures IsClean(s) <==> Sanitized(s) == s
  {
    SanitizedIsClean(s);
    if IsClean(s) {
      MappedKeepsIdCharacters(s);
      CollapsedKeepsSingleDashes(s);
    }
  }

  lemma SanitizingTwiceIsSanitizingOnce(text: string)
    ensures Sanitized(Sanitized(text)) == Sanitized(text)
  {
    SanitizedIsClean(text);
    CleanIsAFixedPoint(Sanitized(text));
  }

  function NumberedId(base: string, k: nat): string { base + "-" + Numeral(k) }

  lemma NumberedIdsDiffer(base: string, s: nat, t: nat)
    requires s != t
    ensures NumberedId(base, s) != NumberedId(base, t)
  {
    var a, b := NumberedId(base, s), NumberedId(base, t);
    assert a[|base| + 1..] == Numeral(s) && b[|base| + 1..] == Numeral(t);
    if a == b {
      NumeralInjective(s, t);
    }
  }

  /** The n-th candidate: the base, the base numbered by the device index, then from 2 on. */
  function IdCandidate(base: string, index: nat, n: nat): string
  {
    if n == 0 then base else if n == 1 then NumberedId(base, index) else NumberedId(base, n)
  }

  /** The first candidate made from the sanitized label that is not in use; it joins the set in use.
      Every other candidate tried was taken, so the loop ends. */
  method MakeControllerId(name: string, index: nat, used: set<string>)
    returns (id: string, used': set<string>, ghost n: nat)
    ensures id !in used && used' == used + {id}
    ensures var base := if Sanitized(name) == [] then "helios" else Sanitized(name);
            && id == IdCandidate(base, index, n)
            && forall m: nat :: m < n ==> IdCandidate(base, index, m) in used
  {
    hide Sanitized, NumberedId;
    var base := SanitizeIdComponent(name);
    if base == [] {
      base := "helios";
    }
    id, n := base, 0;
    if id in used {
      id, n := NumberedId(base, index), 1;
    }
    var suffix := 2;
    ghost var rejected: set<string> := {};
    while id in used
      invariant id == IdCandidate(base, index, n)
      invariant forall m: nat :: m < n ==> IdCandidate(base, index, m) in used
      invariant 2 <= suffix <= |used| + 3
      invariant if suffix == 2 then n <= 1 && (n == 0 ==> base !in used) else n == suffix - 1
      invariant rejected <= used && |rejected| == if suffix == 2 then 0 else suffix - 3
      invariant forall x :: x in rejected ==>
                  exists k: nat :: 2 <= k < suffix - 1 && x == NumberedId(base, k)
      decreases |used| + 3 - suffix
    {
      if suffix > 2 {
        if id in rejected {
          var k: nat :| 2 <= k < suffix - 1 && id == NumberedId(base, k);
          NumberedIdsDiffer(base, k, suffix - 1);
          assert false;
        }
        rejected := rejected + {id};
        SubsetIsNoLarger(rejected, used);
      }
      id, n := NumberedId(base, suffix), suffix;
      suffix := suffix + 1;
    }
    used' := used + {id};
  }
}
