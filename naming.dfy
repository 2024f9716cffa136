/**
 * The three name transformations of the content processor
 * (scripts/process-content.js): the URL slug of a project directory, the
 * display title derived from it, and the output name of a source image.
 */
module Naming {
  import opened Text
  import opened NodePath

  // ---------------------------------------------------------------------------
  // generateSlug

  /** A character a slug may hold: `[a-z0-9-]`. */
  predicate IsSlugChar(c: char) { IsLower(c) || IsDigit(c) || c == '-' }

  /** What `replace(/[^a-z0-9\s-]/g, '')` lets through. */
  predicate KeptInSlug(c: char) { IsLower(c) || IsDigit(c) || IsSpace(c) || c == '-' }

  /** A lower-case ASCII letter or a digit: the characters that carry a slug's content. */
  predicate IsLowerAlnum(c: char) { IsLower(c) || IsDigit(c) }

  /** Only `[a-z0-9-]`, and never `--`. */
  ghost predicate IsSlug(s: string) {
    && (forall i :: 0 <= i < |s| ==> IsSlugChar(s[i]))
    && NoAdjacent(s, IsHyphen)
  }

  /**
   * The first four steps of `generateSlug`: lower-case, delete everything
   * outside `[a-z0-9\s-]`, turn each whitespace run into `-`, collapse runs
   * of `-`.
   */
  function Collapsed(name: string): string {
    SquashRuns(SquashRuns(Keep(ToLower(name), KeptInSlug), IsSpace, '-'), IsHyphen, '-')
  }

  /** `generateSlug`: the collapsed name, then `trim`. */
  function GenerateSlug(name: string): string {
    Trim(Collapsed(name))
  }

  /** Before trimming, the name already holds only `[a-z0-9-]`. */
  lemma CollapsedChars(name: string)
    ensures forall i :: 0 <= i < |Collapsed(name)| ==> IsSlugChar(Collapsed(name)[i])
  {
    var kept := Keep(ToLower(name), KeptInSlug);
    var dashed := SquashRuns(kept, IsSpace, '-');
    var collapsed := SquashRuns(dashed, IsHyphen, '-');
    KeepChars(ToLower(name), KeptInSlug);
    SquashChars(kept, IsSpace, '-');
    SquashChars(dashed, IsHyphen, '-');
    forall i | 0 <= i < |collapsed|
      ensures IsSlugChar(collapsed[i])
    {
      assert collapsed[i] in collapsed;
    }
  }

  /** `trim` leaves a string of slug characters alone. */
  lemma TrimSlugChars(s: string)
    requires forall i :: 0 <= i < |s| ==> IsSlugChar(s[i])
    ensures Trim(s) == s
  {
    if s != [] {
      assert IsSlugChar(s[0]) && IsSlugChar(s[|s| - 1]);
    }
  }

  /** The closing `trim` has nothing left to remove. */
  lemma TrimCollapsed(name: string)
    ensures GenerateSlug(name) == Collapsed(name)
  {
    CollapsedChars(name);
    TrimSlugChars(Collapsed(name));
  }

  /** Every slug holds only `[a-z0-9-]` and never `--`. */
  lemma SlugWellFormed(name: string)
    ensures IsSlug(GenerateSlug(name))
  {
    CollapsedChars(name);
    TrimCollapsed(name);
    SquashNoAdjacent(SquashRuns(Keep(ToLower(name), KeptInSlug), IsSpace, '-'), IsHyphen, '-');
  }

  /** Each step before trimming leaves a well-formed slug as it is. */
  lemma CollapsedFixpoint(s: string)
    requires IsSlug(s)
    ensures Collapsed(s) == s
  {
    assert ToLower(s) == s;
    assert Keep(s, KeptInSlug) == s;
    SquashIdentity(s, IsSpace, '-');
    SquashIdentity(s, IsHyphen, '-');
  }

  /** A well-formed slug is its own slug. */
  lemma SlugFixpoint(s: string)
    requires IsSlug(s)
    ensures GenerateSlug(s) == s
  {
    CollapsedFixpoint(s);
    TrimSlugChars(s);
  }

  /** `generateSlug` is idempotent. */
  lemma SlugIdempotent(name: string)
    ensures GenerateSlug(GenerateSlug(name)) == GenerateSlug(name)
  {
    SlugWellFormed(name);
    SlugFixpoint(GenerateSlug(name));
  }

  /**
   * The letters and digits of a slug are exactly those of the name, lower-cased
   * and in order; everything else in it is a hyphen.
   */
  lemma SlugKeepsLettersAndDigits(name: string)
    ensures Keep(GenerateSlug(name), IsLowerAlnum) == Keep(ToLower(name), IsLowerAlnum)
  {
    var lowered := ToLower(name);
    var kept := Keep(lowered, KeptInSlug);
    var dashed := SquashRuns(kept, IsSpace, '-');
    TrimCollapsed(name);
    KeepKeep(lowered, KeptInSlug, IsLowerAlnum);
    KeepSquash(kept, IsSpace, '-', IsLowerAlnum);
    KeepSquash(dashed, IsHyphen, '-', IsLowerAlnum);
  }

  lemma PaddedNameFiltered()
    ensures Keep(ToLower(" A "), KeptInSlug) == " a "
  {
    assert ToLower(" A ") == " a ";
  }

  lemma PaddedNameSquashed()
    ensures SquashRuns(SquashRuns(" a ", IsSpace, '-'), IsHyphen, '-') == "-a-"
  {
    assert SquashRuns(" a ", IsSpace, '-') == "-a-";
  }

  /** `trim` runs after whitespace has become `-`, so a leading or trailing space survives as a hyphen. */
  lemma SlugKeepsOuterHyphens()
    ensures GenerateSlug(" A ") == "-a-"
  {
    PaddedNameFiltered();
    PaddedNameSquashed();
    var collapsed := Collapsed(" A ");
    assert collapsed == "-a-";
    assert !IsSpace(collapsed[0]) && !IsSpace(collapsed[2]);
  }

  lemma SpacedNameFiltered()
    ensures Keep(ToLower("A B"), KeptInSlug) == "a b"
  {
    assert ToLower("A B") == "a b";
  }

  lemma HyphenatedNameSquashed()
    ensures SquashRuns(SquashRuns("a b", IsSpace, '-'), IsHyphen, '-') == "a-b"
    ensures SquashRuns(SquashRuns("a-b", IsSpace, '-'), IsHyphen, '-') == "a-b"
  {
    assert SquashRuns("a b", IsSpace, '-') == "a-b";
    assert SquashRuns("a-b", IsSpace, '-') == "a-b";
  }

  /** Two different directory names can share a slug: the pipeline does not make ids unique. */
  lemma SlugsCollide()
    ensures GenerateSlug("A B") == GenerateSlug("a-b") == "a-b"
  {
    SpacedNameFiltered();
    HyphenatedNameSquashed();
    assert Collapsed("A B") == "a-b";
    assert Collapsed("a-b") == "a-b" by {
      assert ToLower("a-b") == "a-b";
    }
  }

  // ---------------------------------------------------------------------------
  // formatProjectName

  /** `parts.join(sep)`. */
  function Join(parts: seq<string>, sep: char): string {
    if parts == [] then []
    else if |parts| == 1 then parts[0]
    else parts[0] + [sep] + Join(parts[1..], sep)
  }

  /** `s.split(sep)`: the pieces between separators, at least one, which `Join` puts back together. */
  function Split(s: string, sep: char): (parts: seq<string>)
    ensures |parts| >= 1
    ensures forall k :: 0 <= k < |parts| ==> sep !in parts[k]
    ensures Join(parts, sep) == s
    decreases |s|
  {
    if sep !in s then [s]
    else
      var i := IndexOf(s, sep);
      var rest := Split(s[i + 1..], sep);
      var parts := [s[..i]] + rest;
      assert parts[1..] == rest;
      assert s == s[..i] + [sep] + s[i + 1..];
      parts
  }

  /** `part.charAt(0).toUpperCase() + part.slice(1).toLowerCase()`. */
  function Capitalize(part: string): (r: string)
    ensures |r| == |part|
    ensures forall i :: 0 <= i < |part| ==> r[i] == if i == 0 then UpperChar(part[0]) else LowerChar(part[i])
  {
    if part == [] then [] else [UpperChar(part[0])] + ToLower(part[1..])
  }

  /** `parts.map(Capitalize)`. */
  function CapitalizeAll(parts: seq<string>): (r: seq<string>)
    ensures |r| == |parts|
    ensures forall k :: 0 <= k < |parts| ==> r[k] == Capitalize(parts[k])
  {
    if parts == [] then [] else [Capitalize(parts[0])] + CapitalizeAll(parts[1..])
  }

  /** The `split('_')`, capitalise, `join(' ')` stage of `formatProjectName`. */
  function TitleCase(name: string): string {
    Join(CapitalizeAll(Split(name, '_')), ' ')
  }

  /**
   * Character `i` of the title-cased name, stated on its own: `_` becomes a
   * space, a character that starts the name or follows `_` is upper-cased, and
   * every other one is lower-cased.
   */
  function TitleChar(name: string, i: nat): char
    requires i < |name|
  {
    if name[i] == '_' then ' '
    else if i == 0 || name[i - 1] == '_' then UpperChar(name[i])
    else LowerChar(name[i])
  }

  /** Splitting at the first `_` peels off the piece before it. */
  lemma TitleCaseCons(name: string, k: nat)
    requires k < |name| && name[k] == '_' && '_' !in name[..k]
    ensures TitleCase(name) == Capitalize(name[..k]) + [' '] + TitleCase(name[k + 1..])
  {
    assert IndexOf(name, '_') == k;
    var rest := Split(name[k + 1..], '_');
    assert Split(name, '_') == [name[..k]] + rest;
    var caps := CapitalizeAll([name[..k]] + rest);
    assert caps == [Capitalize(name[..k])] + CapitalizeAll(rest);
    assert caps[1..] == CapitalizeAll(rest);
  }

  /** Character by character, a piece, a space and the title-cased remainder agree with `TitleChar`. */
  lemma TitleCharsCons(name: string, k: nat, tail: string)
    requires k < |name| && name[k] == '_' && '_' !in name[..k]
    requires |tail| == |name| - k - 1
    requires forall j :: 0 <= j < |tail| ==> tail[j] == TitleChar(name[k + 1..], j)
    ensures forall i :: 0 <= i < |name| ==> (Capitalize(name[..k]) + [' '] + tail)[i] == TitleChar(name, i)
  {
    var head := name[..k];
    var rest := name[k + 1..];
    var t := Capitalize(head) + [' '] + tail;
    forall i | 0 <= i < |name|
      ensures t[i] == TitleChar(name, i)
    {
      if i < k {
        assert name[i] == head[i] && name[i] != '_';
        assert i > 0 ==> name[i - 1] == head[i - 1];
      } else if i > k {
        assert name[i] == rest[i - k - 1];
        assert t[i] == tail[i - k - 1];
        assert i - 1 > k ==> name[i - 1] == rest[i - k - 2];
      }
    }
  }

  /** The title-cased name is the name with `TitleChar` applied at every position. */
  lemma {:induction false} TitleCaseAt(name: string)
    ensures |TitleCase(name)| == |name|
    ensures forall i :: 0 <= i < |name| ==> TitleCase(name)[i] == TitleChar(name, i)
    decreases |name|
  {
    if '_' !in name {
      assert Split(name, '_') == [name];
      assert CapitalizeAll([name]) == [Capitalize(name)];
      forall i | 0 <= i < |name|
        ensures TitleCase(name)[i] == TitleChar(name, i)
      {
        assert name[i] != '_';
        assert i > 0 ==> name[i - 1] != '_';
      }
    } else {
      var k := IndexOf(name, '_');
      TitleCaseAt(name[k + 1..]);
      TitleCaseCons(name, k);
      TitleCharsCons(name, k, TitleCase(name[k + 1..]));
    }
  }

  /** Every character of the whitespace run that starts at `from` is whitespace. */
  lemma SpaceRunAt(s: string, from: nat)
    requires from <= |s|
    ensures forall i :: from <= i < from + RunLength(s[from..], IsSpace) ==> IsSpace(s[i])
  {
    var spaces := RunLength(s[from..], IsSpace);
    forall i | from <= i < from + spaces
      ensures IsSpace(s[i])
    {
      assert s[i] == s[from..][i - from];
    }
  }

  /**
   * `n` characters are what `replace(/^\d+_?\s*\/, '')` removes from `s`: a
   * leading run of digits, then at most one `_`, then whitespace, each taken
   * as far as it goes; nothing when `s` does not start with a digit.
   */
  predicate IsLeadingNumberCut(s: string, n: nat)
  {
    && n <= |s|
    && (n == 0 <==> s == [] || !IsDigit(s[0]))
    && (forall i :: 0 <= i < n ==> IsDigit(s[i]) || s[i] == '_' || IsSpace(s[i]))
    // after the first non-digit that is cut, only whitespace is cut
    && (forall i, j :: 0 <= i < j < n && !IsDigit(s[i]) ==> IsSpace(s[j]))
    // the cut stops at the first character none of the three parts can take
    && (0 < n < |s| ==> !IsSpace(s[n]))
    && (0 < n < |s| && IsDigit(s[n - 1]) ==> !IsDigit(s[n]) && s[n] != '_')
  }

  /** A string has one leading-number cut at most. */
  lemma LeadingNumberCutUnique(s: string, m: nat, n: nat)
    requires IsLeadingNumberCut(s, m) && IsLeadingNumberCut(s, n)
    ensures m == n
  {
  }

  /** How many characters `replace(/^\d+_?\s*\/, '')` removes from `s`. */
  function LeadingNumberLength(s: string): (n: nat)
    ensures IsLeadingNumberCut(s, n)
  {
    var digits := RunLength(s, IsDigit);
    if digits == 0 then 0
    else
      var afterUnderscore := if digits < |s| && s[digits] == '_' then digits + 1 else digits;
      SpaceRunAt(s, afterUnderscore);
      afterUnderscore + RunLength(s[afterUnderscore..], IsSpace)
  }

  /** The string without its leading number. */
  function StripLeadingNumber(s: string): string
  {
    s[LeadingNumberLength(s)..]
  }

  /** `formatProjectName`: the fallback title made from a directory name. */
  function FormatProjectName(name: string): string {
    StripLeadingNumber(TitleCase(name))
  }

  /** Title-casing never yields `_`, and keeps digits exactly where they were. */
  lemma TitleCharFacts(name: string, i: nat)
    requires i < |name|
    ensures TitleChar(name, i) != '_'
    ensures IsDigit(TitleChar(name, i)) <==> IsDigit(name[i])
  {
  }

  /** `title` is the tail of the title-cased `name`, character for character, and holds no `_`. */
  predicate IsTitleTail(name: string, title: string)
  {
    |title| <= |name| &&
    forall i :: 0 <= i < |title| ==> title[i] == TitleChar(name, |name| - |title| + i) && title[i] != '_'
  }

  /** Every tail of the title-cased name is a title tail. */
  lemma TitleSuffix(name: string, t: string, cut: nat)
    requires |t| == |name| && forall i :: 0 <= i < |name| ==> t[i] == TitleChar(name, i)
    requires cut <= |t|
    ensures IsTitleTail(name, t[cut..])
  {
    var title := t[cut..];
    forall i | 0 <= i < |title|
      ensures title[i] == TitleChar(name, |name| - |title| + i) && title[i] != '_'
    {
      assert title[i] == t[cut + i];
      TitleCharFacts(name, cut + i);
    }
  }

  /** What survives of the title-cased name is its tail, free of `_`. */
  lemma FormatProjectNameTail(name: string)
    ensures IsTitleTail(name, FormatProjectName(name))
  {
    var t := TitleCase(name);
    TitleCaseAt(name);
    TitleSuffix(name, t, LeadingNumberLength(t));
  }

  /**
   * `cut` characters are what the leading-number `replace` removes from the
   * title-cased `name`: a run of digits, then whitespace (title-casing has
   * already turned every `_` into a space), each taken as far as it goes;
   * nothing when the name does not start with a digit.
   */
  predicate IsTitleNumberCut(name: string, cut: nat)
  {
    && cut <= |name|
    && (cut == 0 <==> name == [] || !IsDigit(name[0]))
    && (forall i :: 0 <= i < cut ==> IsDigit(TitleChar(name, i)) || IsSpace(TitleChar(name, i)))
    && (forall i, j :: 0 <= i < j < cut && !IsDigit(TitleChar(name, i)) ==> IsSpace(TitleChar(name, j)))
    && (0 < cut < |name| ==> !IsSpace(TitleChar(name, cut)))
    && (0 < cut < |name| && IsDigit(TitleChar(name, cut - 1)) ==> !IsDigit(TitleChar(name, cut)))
  }

  /** A leading-number cut of the title-cased name, read back on the name through `TitleChar`. */
  lemma TitleNumberCut(name: string, t: string, cut: nat)
    requires |t| == |name| && forall i :: 0 <= i < |name| ==> t[i] == TitleChar(name, i)
    requires IsLeadingNumberCut(t, cut)
    ensures IsTitleNumberCut(name, cut)
  {
    if name != [] {
      TitleCharFacts(name, 0);
    }
    forall i | 0 <= i < cut
      ensures IsDigit(TitleChar(name, i)) || IsSpace(TitleChar(name, i))
    {
      TitleCharFacts(name, i);
    }
    forall i, j | 0 <= i < j < cut && !IsDigit(TitleChar(name, i))
      ensures IsSpace(TitleChar(name, j))
    {
      assert t[i] == TitleChar(name, i) && t[j] == TitleChar(name, j);
    }
  }

  /** What is cut from the title-cased name is its leading number: digits, then whitespace, each as far as it goes. */
  lemma FormatProjectNameCut(name: string)
    ensures |FormatProjectName(name)| <= |name|
    ensures IsTitleNumberCut(name, |name| - |FormatProjectName(name)|)
  {
    TitleCaseAt(name);
    var t := TitleCase(name);
    var cut := LeadingNumberLength(t);
    assert |name| - |FormatProjectName(name)| == cut;
    TitleNumberCut(name, t, cut);
  }

  /**
   * The fallback title is the title-cased name with its leading number cut
   * off; it never holds `_`.
   */
  lemma FormatProjectNameSpec(name: string)
    ensures var title := FormatProjectName(name);
            var cut := |name| - |title|;
            && 0 <= cut <= |name|
            && (forall i :: 0 <= i < |title| ==> title[i] == TitleChar(name, cut + i))
            && '_' !in title
            && IsTitleNumberCut(name, cut)
  {
    FormatProjectNameTail(name);
    FormatProjectNameCut(name);
  }

  /** A name without `_` or upper-case letters whose first character is no lower-case letter is already title-cased. */
  lemma TitleCaseFixed(name: string)
    requires forall i :: 0 <= i < |name| ==> name[i] != '_' && !IsUpper(name[i])
    requires name == [] || !IsLower(name[0])
    ensures TitleCase(name) == name
  {
    TitleCaseAt(name);
    forall i | 0 <= i < |name|
      ensures TitleCase(name)[i] == name[i]
    {
      assert i > 0 ==> name[i - 1] != '_';
    }
  }

  /**
   * A run of digits followed by whitespace is the leading number of any text
   * after it that neither of the two runs could take.
   */
  lemma DigitsThenSpacesCut(digits: string, spaces: string, rest: string)
    requires digits != [] && forall i :: 0 <= i < |digits| ==> IsDigit(digits[i])
    requires forall i :: 0 <= i < |spaces| ==> IsSpace(spaces[i])
    requires rest != [] ==> !IsSpace(rest[0]) && (spaces == [] ==> !IsDigit(rest[0]) && rest[0] != '_')
    ensures StripLeadingNumber(digits + spaces + rest) == rest
  {
    var s := digits + spaces + rest;
    var n := |digits| + |spaces|;
    forall i | 0 <= i < n
      ensures IsDigit(s[i]) || IsSpace(s[i])
      ensures i >= |digits| ==> IsSpace(s[i])
    {
      if i < |digits| {
        assert s[i] == digits[i];
      } else {
        assert s[i] == spaces[i - |digits|];
      }
    }
    if n < |s| {
      assert s[n] == rest[0];
      assert spaces != [] ==> s[n - 1] == spaces[|spaces| - 1];
    }
    assert s[0] == digits[0];
    assert IsLeadingNumberCut(s, n);
    LeadingNumberCutUnique(s, n, LeadingNumberLength(s));
    assert s[n..] == rest;
  }

  /** A numbered directory name loses its number and the whitespace after it. */
  lemma FormatProjectNameDropsNumber()
    ensures FormatProjectName("12 ab") == "ab"
  {
    TitleCaseFixed("12 ab");
    assert "12 ab" == "12" + " " + "ab";
    DigitsThenSpacesCut("12", " ", "ab");
  }

  /** Only the first number is cut: a second one after the whitespace stays. */
  lemma FormatProjectNameKeepsSecondNumber()
    ensures FormatProjectName("1 2ab") == "2ab"
  {
    TitleCaseFixed("1 2ab");
    assert "1 2ab" == "1" + " " + "2ab";
    DigitsThenSpacesCut("1", " ", "2ab");
  }

  // ---------------------------------------------------------------------------
  // sanitizeFileName

  /** `[a-zA-Z0-9\-_]`: what a sanitized stem may hold. */
  predicate IsSafeFileChar(c: char) { IsLower(c) || IsUpper(c) || IsDigit(c) || c == '-' || c == '_' }

  /** A letter, a digit or `-`: the characters sanitizing passes through. */
  predicate IsNameContent(c: char) { IsLower(c) || IsUpper(c) || IsDigit(c) || c == '-' }

  /** Only safe characters, and never `__`. */
  ghost predicate IsSafeStem(s: string) {
    && (forall i :: 0 <= i < |s| ==> IsSafeFileChar(s[i]))
    && NoAdjacent(s, IsUnderscore)
  }

  function SafeFileChar(c: char): char {
    if IsSafeFileChar(c) then c else '_'
  }

  /** `replace(/[^a-zA-Z0-9\-_]/g, '_').replace(/_+/g, '_')`. */
  function SanitizeStem(stem: string): string {
    SquashRuns(MapChars(stem, SafeFileChar), IsUnderscore, '_')
  }

  /** `sanitizeFileName`: the output name of a source image, always a `.jpg`. */
  function SanitizeFileName(fileName: string): string {
    SanitizeStem(Stem(fileName)) + ".jpg"
  }

  /** A sanitized stem holds only safe characters and never `__`. */
  lemma SanitizeStemSafe(stem: string)
    ensures IsSafeStem(SanitizeStem(stem))
  {
    var mapped := MapChars(stem, SafeFileChar);
    var safe := SanitizeStem(stem);
    SquashNoAdjacent(mapped, IsUnderscore, '_');
    SquashChars(mapped, IsUnderscore, '_');
    forall i | 0 <= i < |safe|
      ensures IsSafeFileChar(safe[i])
    {
      assert safe[i] in safe;
      if safe[i] != '_' {
        var j :| 0 <= j < |mapped| && mapped[j] == safe[i];
      }
    }
  }

  /** Sanitizing keeps the letters, digits and hyphens of the stem, in order. */
  lemma SanitizeStemKeepsContent(stem: string)
    ensures Keep(SanitizeStem(stem), IsNameContent) == Keep(stem, IsNameContent)
  {
    KeepSquash(MapChars(stem, SafeFileChar), IsUnderscore, '_', IsNameContent);
    KeepMapSafe(stem);
  }

  /**
   * The output name is a safe stem followed by `.jpg`; the stem is empty only
   * for the empty file name, and it keeps the letters, digits and hyphens of
   * the source stem in order.
   */
  lemma SanitizeFileNameShape(fileName: string)
    ensures var out := SanitizeFileName(fileName);
            var stem := SanitizeStem(Stem(fileName));
            && out == stem + ".jpg"
            && IsSafeStem(stem)
            && (stem == [] <==> fileName == [])
            && Keep(stem, IsNameContent) == Keep(Stem(fileName), IsNameContent)
  {
    SanitizeStemSafe(Stem(fileName));
    SanitizeStemKeepsContent(Stem(fileName));
  }

  /** Replacing unsafe characters by `_` does not change the letters, digits and hyphens. */
  lemma {:induction false} KeepMapSafe(s: string)
    ensures Keep(MapChars(s, SafeFileChar), IsNameContent) == Keep(s, IsNameContent)
  {
    if s != [] {
      KeepMapSafe(s[1..]);
      var m := MapChars(s, SafeFileChar);
      assert m == [SafeFileChar(s[0])] + MapChars(s[1..], SafeFileChar);
      assert m[1..] == MapChars(s[1..], SafeFileChar);
    }
  }

  /** A safe stem is left as it is. */
  lemma SanitizeStemFixpoint(stem: string)
    requires IsSafeStem(stem)
    ensures SanitizeStem(stem) == stem
  {
    assert MapChars(stem, SafeFileChar) == stem;
    SquashIdentity(stem, IsUnderscore, '_');
  }

  /** Sanitizing an output name again changes nothing, for every non-empty file name. */
  lemma SanitizeIdempotent(fileName: string)
    requires fileName != []
    ensures SanitizeFileName(SanitizeFileName(fileName)) == SanitizeFileName(fileName)
  {
    var stem := SanitizeStem(Stem(fileName));
    SanitizeFileNameShape(fileName);
    assert '.' !in stem by {
      forall i | 0 <= i < |stem|
        ensures stem[i] != '.'
      {
        assert IsSafeFileChar(stem[i]);
      }
    }
    StemOfJoined(stem, ".jpg");
    SanitizeStemFixpoint(stem);
  }

  /** The dot-file `.jpg` has no extension, so its output name is `_jpg.jpg`. */
  lemma SanitizeDotFile(fileName: string)
    requires fileName == ".jpg"
    ensures SanitizeFileName(fileName) == "_jpg.jpg"
  {
    LastIndexOfIsLast(fileName, '.');
    assert fileName[0] == '.' && fileName[1] != '.' && fileName[2] != '.' && fileName[3] != '.';
    assert LastIndexOf(fileName, '.') == 0;
    assert Stem(fileName) == fileName;
    var mapped := MapChars(fileName, SafeFileChar);
    assert mapped == "_jpg";
    SquashIdentity(mapped, IsUnderscore, '_');
  }

  /**
   * The empty file name is the one exception to idempotence: its output `.jpg`
   * is a dot-file, whose own output name is `_jpg.jpg`.
   */
  lemma SanitizeEmptyNotIdempotent(fileName: string)
    requires fileName == []
    ensures SanitizeFileName(fileName) == ".jpg"
    ensures SanitizeFileName(SanitizeFileName(fileName)) == "_jpg.jpg"
  {
    assert Stem(fileName) == [];
    SanitizeDotFile(SanitizeFileName(fileName));
  }
}
