/**
 Slugs of software products: the clean-up of a product name and the loop that picks a slug no
 other product has, under the advisory lock that serialises product creation.
 */
module SlugAllocator {
  import opened Wrappers
  import opened Decimal
  import Text

  const MAX_SLUG_LENGTH := 80
  const MAX_NAME_LENGTH := 120

  predicate IsWordChar(c: char) {
    'a' <= c <= 'z' || '0' <= c <= '9'
  }

  predicate IsSlugChar(c: char) {
    IsWordChar(c) || c == '-'
  }

  /** Word characters and dashes, no dash followed by another. */
  predicate SingleDashes(s: string) {
    s == ""
    || (IsSlugChar(s[0]) && (s[0] == '-' && |s| > 1 ==> s[1] != '-') && SingleDashes(s[1..]))
  }

  predicate IsSlug(s: string) {
    s != "" && SingleDashes(s) && s[0] != '-' && s[|s| - 1] != '-'
  }

  predicate IsWord(s: string) {
    s != "" && forall i | 0 <= i < |s| :: IsWordChar(s[i])
  }

  /** The signer's test of a product slug. */
  predicate ValidSlug(s: string) {
    && s != ""
    && |s| <= 80
    && s[0] != '-'
    && s[|s| - 1] != '-'
    && forall i | 0 <= i < |s| :: 'a' <= s[i] <= 'z' || '0' <= s[i] <= '9' || s[i] == '-'
  }

  /******* Clean-up of a name *******/

  function SkipOthers(s: string): (r: string)
    ensures |r| <= |s|
    ensures r != "" ==> IsWordChar(r[0])
  {
    if s == "" || IsWordChar(s[0]) then s else SkipOthers(s[1..])
  }

  /** Replaces each maximal run of other characters by one dash. */
  function Collapse(s: string): (r: string)
    ensures SingleDashes(r)
    ensures s != "" && IsWordChar(s[0]) ==> r != "" && r[0] == s[0]
    decreases |s|
  {
    if s == "" then ""
    else if IsWordChar(s[0]) then [s[0]] + Collapse(s[1..])
    else
      var rest := SkipOthers(s[1..]);
      assert rest == "" ==> Collapse(rest) == "";
      ['-'] + Collapse(rest)
  }

  function TrimStart(s: string): (r: string)
    ensures SingleDashes(s) ==> SingleDashes(r)
    ensures r != "" ==> r[0] != '-'
    ensures |r| <= |s| && r == s[|s| - |r|..]
  {
    if s != "" && s[0] == '-' then TrimStart(s[1..]) else s
  }

  function TrimEnd(s: string): (r: string)
    ensures r <= s
    ensures r != "" ==> r[|r| - 1] != '-'
    ensures s != "" && s[0] != '-' ==> r != ""
  {
    if s != "" && s[|s| - 1] == '-' then TrimEnd(s[..|s| - 1]) else s
  }

  function Take(s: string, n: nat): (r: string)
    ensures r <= s && |r| <= n
    ensures n > 0 && s != "" ==> r != ""
  {
    if |s| <= n then s else s[..n]
  }

  /** `name` is lower-cased and free of combining marks. */
  function SafeSlug(name: string): (slug: string)
    ensures IsSlug(slug) && |slug| <= MAX_SLUG_LENGTH
  {
    var slug := TrimEnd(Take(TrimEnd(TrimStart(Collapse(name))), MAX_SLUG_LENGTH));
    CutIsSlug(TrimStart(Collapse(name)), slug);
    DefaultIsSlug();
    if slug == "" then "software" else slug
  }

  lemma DefaultIsSlug()
    ensures IsSlug("software")
  {
  }

  lemma {:induction false} PrefixSingle(s: string, r: string)
    requires SingleDashes(s) && r <= s
    ensures SingleDashes(r)
  {
    if r != "" {
      PrefixSingle(s[1..], r[1..]);
    }
  }

  lemma CutIsSlug(s: string, r: string)
    requires SingleDashes(s) && r <= s && (s != "" ==> s[0] != '-')
    requires r != "" ==> r[|r| - 1] != '-'
    ensures r != "" ==> IsSlug(r)
  {
    PrefixSingle(s, r);
  }

  /** A slug has the form `[a-z0-9]+(-[a-z0-9]+)*`: words joined by dashes. */
  lemma SlugIsWords(s: string)
    ensures IsSlug(s) <==> forall i | 0 <= i < |Text.Split(s, '-')| :: IsWord(Text.Split(s, '-')[i])
  {
    Text.JoinSplit(s, '-');
    WordsMakeSlugs(Text.Split(s, '-'));
  }

  lemma {:induction false} WordsMakeSlugs(parts: seq<string>)
    requires |parts| > 0 && forall i | 0 <= i < |parts| :: '-' !in parts[i]
    ensures IsSlug(Text.Join(parts, '-')) <==> forall i | 0 <= i < |parts| :: IsWord(parts[i])
    decreases |parts|
  {
    var rest := Text.Join(parts[1..], '-');
    if |parts| == 1 {
      WordThenDash(parts[0], "");
      assert parts[0] + "" == parts[0];
    } else {
      WordsMakeSlugs(parts[1..]);
      FirstWord(parts[0], rest);
      assert forall i | 1 <= i < |parts| :: parts[i] == parts[1..][i - 1];
      assert parts[0] + ['-'] + rest == parts[0] + (['-'] + rest);
    }
  }

  lemma FirstWord(head: string, rest: string)
    requires '-' !in head
    ensures IsSlug(head + (['-'] + rest)) <==> IsWord(head) && IsSlug(rest)
  {
    var s := head + (['-'] + rest);
    WordThenDash(head, ['-'] + rest);
    assert (['-'] + rest)[1..] == rest;
    assert rest != "" ==> s[|s| - 1] == rest[|rest| - 1];
    assert head != "" ==> s[0] == head[0] && head[0] in head;
  }

  lemma {:induction false} WordThenDash(head: string, tail: string)
    requires '-' !in head
    ensures SingleDashes(head + tail) <==> (forall i | 0 <= i < |head| :: IsWordChar(head[i])) && SingleDashes(tail)
    ensures IsWord(head) ==> head[0] != '-' && head[|head| - 1] != '-'
  {
    if head == "" {
      assert head + tail == tail;
    } else {
      assert head[0] in head;
      WordThenDash(head[1..], tail);
      assert (head + tail)[1..] == head[1..] + tail;
      assert forall i | 1 <= i < |head| :: head[i] == head[1..][i - 1];
    }
  }

  /** The longest front part made of word characters. */
  function Run(s: string): (w: string)
    ensures w <= s && forall i | 0 <= i < |w| :: IsWordChar(w[i])
    ensures |w| < |s| ==> !IsWordChar(s[|w|])
    ensures s != "" && IsWordChar(s[0]) ==> w != ""
  {
    if s == "" || !IsWordChar(s[0]) then "" else [s[0]] + Run(s[1..])
  }

  /** The maximal runs of word characters of a name, in order. */
  function Words(s: string): (words: seq<string>)
    ensures forall i | 0 <= i < |words| :: IsWord(words[i])
    decreases |s|
  {
    if s == "" then []
    else if !IsWordChar(s[0]) then Words(s[1..])
    else [Run(s)] + Words(s[|Run(s)|..])
  }

  /** The words of a cleaned-up name, with one dash between them. */
  predicate IsCleanUp(s: string) {
    TrimEnd(TrimStart(Collapse(s))) == Text.Join(Words(s), '-')
  }

  /** The clean-up keeps exactly the words of the name and puts one dash between them. */
  lemma {:induction false} CleanUpJoinsWords(s: string)
    ensures IsCleanUp(s)
    decreases |s|
  {
    if s == "" {
    } else if !IsWordChar(s[0]) {
      CleanUpJoinsWords(SkipOthers(s[1..]));
      SkippedHasSameWords(s[1..]);
      assert Collapse(s)[1..] == Collapse(SkipOthers(s[1..]));
    } else if Run(s) == s {
      OneWord(s);
    } else {
      hide IsCleanUp;
      CleanUpJoinsWords(SkipOthers(s[|Run(s)| + 1..]));
      MoreWords(s);
    }
  }

  /** A text that starts with a word has no dash to trim in front. */
  lemma WordNeedsNoTrim(s: string)
    requires s != "" ==> IsWordChar(s[0])
    ensures TrimStart(Collapse(s)) == Collapse(s) && (Collapse(s) != "" ==> Collapse(s)[0] != '-')
    ensures s == "" <==> Collapse(s) == ""
  {
    NothingCollapses();
    hide SingleDashes, Collapse;
    if s != "" {
      assert Collapse(s)[0] == s[0] != '-';
    }
  }

  lemma NothingCollapses()
    ensures Collapse("") == ""
  {
  }

  lemma MoreWords(s: string)
    requires s != "" && IsWordChar(s[0]) && Run(s) != s && IsCleanUp(SkipOthers(s[|Run(s)| + 1..]))
    ensures IsCleanUp(s)
  {
    hide SingleDashes, TrimEnd, TrimStart, Collapse, Text.Join, Words;
    var rest := SkipOthers(s[|Run(s)| + 1..]);
    FirstOfWords(s);
    WordNeedsNoTrim(rest);
    WordNeedsNoTrim(s);
    NoWords();
    OneMoreWord(Run(s), Collapse(rest), Words(rest));
  }

  lemma NoWords()
    ensures Words("") == []
  {
  }

  lemma OneMoreWord(w: string, x: string, words: seq<string>)
    requires IsWord(w) && (x != "" ==> x[0] != '-') && TrimEnd(x) == Text.Join(words, '-')
    requires x == "" ==> words == []
    ensures TrimEnd(w + (['-'] + x)) == Text.Join([w] + words, '-')
  {
    TrimEndOfTwo(w, x);
    assert ([w] + words)[1..] == words;
    if words == [] {
      assert [w] + words == [w];
    } else {
      hide TrimEnd;
      assert w + ['-'] + Text.Join(words, '-') == w + (['-'] + Text.Join(words, '-'));
    }
  }

  lemma OneWord(s: string)
    requires s != "" && Run(s) == s
    ensures TrimEnd(TrimStart(Collapse(s))) == s && Text.Join(Words(s), '-') == s
  {
    CollapseRun(s);
    assert s[|s|..] == "";
    assert s + "" == s;
    assert Words(s) == [s];
  }

  lemma FirstOfWords(s: string)
    requires s != "" && IsWordChar(s[0]) && Run(s) != s
    ensures Collapse(s) == Run(s) + (['-'] + Collapse(SkipOthers(s[|Run(s)| + 1..])))
    ensures Words(s) == [Run(s)] + Words(SkipOthers(s[|Run(s)| + 1..]))
  {
    hide SingleDashes;
    var w := Run(s);
    var after := s[|w|..];
    CollapseRun(s);
    assert after[1..] == s[|w| + 1..];
    SkippedHasSameWords(after[1..]);
  }

  lemma {:induction false} SkippedHasSameWords(s: string)
    ensures Words(SkipOthers(s)) == Words(s)
  {
    if s != "" && !IsWordChar(s[0]) {
      SkippedHasSameWords(s[1..]);
    }
  }

  lemma {:induction false} CollapseRun(s: string)
    ensures Collapse(s) == Run(s) + Collapse(s[|Run(s)|..])
  {
    if s == "" || !IsWordChar(s[0]) {
      assert s[0..] == s;
    } else {
      CollapseRun(s[1..]);
      assert s[1..][|Run(s[1..])|..] == s[|Run(s)|..];
    }
  }

  /** Trimming stops at a front part that does not end with a dash. */
  lemma {:induction false} TrimEndAfter(front: string, x: string)
    requires front != "" && front[|front| - 1] != '-'
    ensures TrimEnd(front + x) == front + TrimEnd(x)
    decreases |x|
  {
    if x == "" {
      assert front + x == front;
    } else {
      assert (front + x)[|front + x| - 1] == x[|x| - 1];
      if x[|x| - 1] == '-' {
        TrimEndAfter(front, x[..|x| - 1]);
        assert (front + x)[..|front + x| - 1] == front + x[..|x| - 1];
      }
    }
  }

  lemma {:induction false} TrimEndAfterDash(x: string)
    requires x != "" && x[0] != '-'
    ensures TrimEnd(['-'] + x) == ['-'] + TrimEnd(x)
    decreases |x|
  {
    var s := ['-'] + x;
    assert s[|s| - 1] == x[|x| - 1];
    if x[|x| - 1] == '-' {
      TrimEndAfterDash(x[..|x| - 1]);
      assert s[..|s| - 1] == ['-'] + x[..|x| - 1];
    }
  }

  lemma TrimEndOfTwo(w: string, x: string)
    requires IsWord(w) && (x != "" ==> x[0] != '-')
    ensures TrimEnd(w + (['-'] + x)) == if x == "" then w else w + (['-'] + TrimEnd(x))
  {
    assert IsWordChar(w[|w| - 1]);
    TrimEndAfter(w, ['-'] + x);
    if x == "" {
      assert ['-'] + x == ['-'] && ['-'][..0] == "";
      assert TrimEnd(['-']) == "" && w + "" == w;
    } else {
      hide TrimEnd;
      TrimEndAfterDash(x);
    }
  }

  /** A clean-up that ends in a word is only cut. */
  lemma CutOfCleanUp(clean: string)
    requires clean == "" || (clean[0] != '-' && clean[|clean| - 1] != '-')
    ensures TrimEnd(Take(clean, 80)) == if |clean| <= 80 then clean else TrimEnd(clean[..80])
    ensures TrimEnd(Take(clean, 80)) == "" <==> clean == ""
  {
  }

  /** The slug of a name is its words joined by dashes, cut at 80 characters, or "software" when it has no word. */
  lemma SafeSlugFromWords(name: string)
    ensures
      var joined := Text.Join(Words(name), '-');
      SafeSlug(name) == if Words(name) == [] then "software" else if |joined| <= 80 then joined else TrimEnd(joined[..80])
  {
    var joined := Text.Join(Words(name), '-');
    CleanUpJoinsWords(name);
    JoinedStart(Words(name));
    assert joined != "" ==> joined[|joined| - 1] != '-';
    hide SingleDashes, IsSlug, Collapse, Words, Text.Join, TrimStart, TrimEnd, Take;
    CutOfCleanUp(joined);
  }

  lemma JoinedStart(words: seq<string>)
    requires forall i | 0 <= i < |words| :: IsWord(words[i])
    ensures Text.Join(words, '-') == "" <==> words == []
    ensures words != [] ==> Text.Join(words, '-')[0] != '-'
  {
  }

  /******* The allocation loop *******/

  function SuffixText(k: nat): (text: string)
    ensures |text| > 1 && text[0] == '-' && IsDigit(text[1])
  {
    "-" + Digits(k)
  }

  /** The slug that the loop tries with a suffix. */
  function Candidate(base: string, k: nat): string
    requires |SuffixText(k)| <= MAX_SLUG_LENGTH
  {
    TrimEnd(Take(base, MAX_SLUG_LENGTH - |SuffixText(k)|)) + SuffixText(k)
  }

  /** Suffixes stay exact JavaScript integers, and short. */
  lemma SuffixLength(k: nat)
    requires k <= MAX_SAFE_INTEGER
    ensures |SuffixText(k)| <= 17
  {
    assert Pow10(16) == 10_000_000_000_000_000 by {
      assert Pow10(4) == 10_000;
      assert Pow10(8) == 100_000_000;
      assert Pow10(12) == 1_000_000_000_000;
    }
    DigitsLength(k, 16);
  }

  lemma CandidateIsSlug(base: string, k: nat)
    requires IsSlug(base) && |SuffixText(k)| < MAX_SLUG_LENGTH
    ensures IsSlug(Candidate(base, k)) && |Candidate(base, k)| <= MAX_SLUG_LENGTH
  {
    hide SingleDashes;
    var prefix := TrimEnd(Take(base, MAX_SLUG_LENGTH - |SuffixText(k)|));
    CutIsSlug(base, prefix);
    DigitsAreSlug(Digits(k));
    AppendWord(prefix, Digits(k));
    assert Candidate(base, k) == prefix + (['-'] + Digits(k));
  }

  lemma DigitsAreSlug(s: string)
    requires AllDigits(s)
    ensures '-' !in s && forall i | 0 <= i < |s| :: IsWordChar(s[i])
  {
  }

  lemma {:induction false} AppendWord(prefix: string, word: string)
    requires IsSlug(prefix) && IsWord(word) && '-' !in word
    ensures IsSlug(prefix + (['-'] + word))
  {
    hide IsSlugChar;
    assert word + "" == word;
    WordThenDash(word, "");
    DashThenWord(prefix, word);
  }

  lemma {:induction false} DashThenWord(prefix: string, word: string)
    requires SingleDashes(prefix) && (prefix != "" ==> prefix[|prefix| - 1] != '-')
    requires SingleDashes(word) && (word != "" ==> word[0] != '-')
    ensures SingleDashes(prefix + (['-'] + word))
  {
    var s := prefix + (['-'] + word);
    if prefix == "" {
      assert s[1..] == word;
    } else {
      DashThenWord(prefix[1..], word);
      assert s[1..] == prefix[1..] + (['-'] + word);
    }
  }

  /** Candidates with different suffixes differ: the suffix is what follows the last dash. */
  lemma CandidatesDiffer(base: string, j: nat, k: nat)
    requires |SuffixText(j)| <= MAX_SLUG_LENGTH && |SuffixText(k)| <= MAX_SLUG_LENGTH
    requires Candidate(base, j) == Candidate(base, k)
    ensures j == k
  {
    var a := TrimEnd(Take(base, MAX_SLUG_LENGTH - |SuffixText(j)|));
    var b := TrimEnd(Take(base, MAX_SLUG_LENGTH - |SuffixText(k)|));
    DigitsAreSlug(Digits(j));
    DigitsAreSlug(Digits(k));
    AfterLastDash(a, Digits(j), b, Digits(k));
    NumberOfDigits(j);
    NumberOfDigits(k);
  }

  lemma AfterLastDash(a: string, x: string, b: string, y: string)
    requires '-' !in x && '-' !in y && a + (['-'] + x) == b + (['-'] + y)
    ensures x == y
  {
    if |a| < |b| {
      DashInside(a, x, b, y);
    } else if |b| < |a| {
      DashInside(b, y, a, x);
    } else {
      assert (a + (['-'] + x))[|a| + 1..] == x && (b + (['-'] + y))[|a| + 1..] == y;
    }
  }

  lemma DashInside(a: string, x: string, b: string, y: string)
    requires |a| < |b| && a + (['-'] + x) == b + (['-'] + y)
    ensures '-' in x
  {
    var i := |b| - |a| - 1;
    assert (b + (['-'] + y))[|b|] == '-';
    assert (a + (['-'] + x))[|a| + 1 + i] == x[i];
  }

  lemma SuffixLengths(k: nat)
    requires k <= MAX_SAFE_INTEGER
    ensures forall i: nat | i <= k :: |SuffixText(i)| <= 17
  {
    forall i: nat | i <= k
      ensures |SuffixText(i)| <= 17
    {
      SuffixLength(i);
    }
  }

  /** Pigeonhole: candidates that are all taken are at most as many as the slugs that exist. */
  lemma {:induction false} TakenCandidates(base: string, k: nat, existing: set<string>)
    requires 1 <= k <= MAX_SAFE_INTEGER
    requires forall i: nat | i <= k :: |SuffixText(i)| <= 17
    requires forall i: nat | 2 <= i <= k :: Candidate(base, i) in existing
    ensures k - 1 <= |existing|
  {
    hide Candidate, SuffixText;
    if k > 1 {
      var last := Candidate(base, k);
      forall i: nat | 2 <= i <= k - 1
        ensures Candidate(base, i) in existing - {last}
      {
        if Candidate(base, i) == last {
          CandidatesDiffer(base, i, k);
        }
      }
      TakenCandidates(base, k - 1, existing - {last});
    }
  }

  /**
   The products' slugs. The table is read and written under one advisory lock, so that `Create`
   runs alone. A table of more than 2^53 rows is out of the question; up to that size the suffix
   counter is exact.
   */
  class SoftwareTable {
    var slugs: set<string>

    predicate Valid()
      reads this
    {
      forall slug | slug in slugs :: IsSlug(slug) && |slug| <= MAX_SLUG_LENGTH
    }

    constructor ()
      ensures Valid() && slugs == {}
    {
      slugs := {};
    }

    /** The name is trimmed; `normalised` is its lower-cased form without combining marks. */
    method Create(name: string, normalised: string) returns (result: Result<string, string>)
      requires Valid() && |slugs| + 2 <= MAX_SAFE_INTEGER
      modifies this
      ensures Valid()
      ensures result.Ok? <==> 1 <= Text.Units(name) <= 120
      ensures result.Ok? ==> result.value !in old(slugs) && slugs == old(slugs) + {result.value}
      ensures result.Ok? ==> FirstFree(old(slugs), SafeSlug(normalised), result.value)
      ensures result.Err? ==> slugs == old(slugs)
    {
      hide IsSlug, SafeSlug;
      if name == "" || Text.Units(name) > MAX_NAME_LENGTH {
        return Err("Name must be between 1 and 120 characters.");
      }
      var slug := FreeSlug(slugs, SafeSlug(normalised));
      slugs := slugs + {slug};
      return Ok(slug);
    }
  }

  /** The slug is the base, or the first free candidate when the base is taken. */
  ghost predicate FirstFree(existing: set<string>, base: string, slug: string)
    requires |existing| + 2 <= MAX_SAFE_INTEGER
  {
    SuffixLengths(|existing| + 2);
    slug !in existing
    && (base !in existing ==> slug == base)
    && (base in existing ==>
          exists k: nat | 2 <= k <= |existing| + 2 ::
            slug == Candidate(base, k) && forall i: nat | 2 <= i < k :: Candidate(base, i) in existing)
  }

  /** What `cut` keeps of a text: as many characters as fit, without the dashes at the end of them. */
  predicate IsCut(text: string, room: nat, cut: string) {
    && cut <= text && |cut| <= room
    && (cut == "" || cut[|cut| - 1] != '-')
    && (forall i | |cut| <= i < |text| && i < room :: text[i] == '-')
  }

  /**
   A taken base gets a dash and the decimal of the least number from two on that gives a free slug, after as much of the
   base as fits into 80 characters.
   */
  lemma TakenBaseGetsTheLeastNumber(existing: set<string>, base: string, slug: string) returns (k: nat, cuts: seq<string>)
    requires |existing| + 2 <= MAX_SAFE_INTEGER && FirstFree(existing, base, slug) && base in existing
    ensures 2 <= k <= |existing| + 2 && |cuts| == k + 1
    ensures forall i | 2 <= i <= k :: |Digits(i)| < 80 && IsCut(base, 79 - |Digits(i)|, cuts[i])
    ensures slug == cuts[k] + "-" + Digits(k) && slug !in existing
    ensures forall i | 2 <= i < k :: cuts[i] + "-" + Digits(i) in existing
    ensures |base| <= 60 && base != "" && base[|base| - 1] != '-' ==> forall i | 2 <= i <= k :: cuts[i] == base
  {
    hide TrimEnd, Take, Digits;
    SuffixLengths(|existing| + 2);
    k :| 2 <= k <= |existing| + 2 && slug == Candidate(base, k) && forall i: nat | 2 <= i < k :: Candidate(base, i) in existing;
    cuts := seq(k + 1, i requires 0 <= i <= k => TrimEnd(Take(base, MAX_SLUG_LENGTH - |SuffixText(i)|)));
    forall i | 2 <= i <= k
      ensures |Digits(i)| <= 16 && IsCut(base, 79 - |Digits(i)|, cuts[i]) && Candidate(base, i) == cuts[i] + "-" + Digits(i)
    {
      assert |SuffixText(i)| == 1 + |Digits(i)|;
      CutsAreCuts(base, MAX_SLUG_LENGTH - |SuffixText(i)|);
    }
  }

  lemma CutsAreCuts(text: string, room: nat)
    ensures IsCut(text, room, TrimEnd(Take(text, room)))
  {
    TrimmedIsCut(Take(text, room));
  }

  lemma {:induction false} TrimmedIsCut(s: string)
    ensures TrimEnd(s) <= s
    ensures TrimEnd(s) == "" || TrimEnd(s)[|TrimEnd(s)| - 1] != '-'
    ensures forall i | |TrimEnd(s)| <= i < |s| :: s[i] == '-'
    decreases |s|
  {
    if s != "" && s[|s| - 1] == '-' {
      TrimmedIsCut(s[..|s| - 1]);
    }
  }

  method FreeSlug(existing: set<string>, baseSlug: string) returns (slug: string)
    requires IsSlug(baseSlug) && |baseSlug| <= MAX_SLUG_LENGTH
    requires |existing| + 2 <= MAX_SAFE_INTEGER
    ensures FirstFree(existing, baseSlug, slug)
    ensures IsSlug(slug) && |slug| <= MAX_SLUG_LENGTH
    ensures ValidSlug(slug)
  {
    hide IsSlug, ValidSlug, SuffixText, TrimEnd, Take;
    slug := baseSlug;
    var suffix := 1;
    SuffixLengths(|existing| + 2);
    while slug in existing
      invariant 1 <= suffix <= |existing| + 2
      invariant slug == if suffix == 1 then baseSlug else Candidate(baseSlug, suffix)
      invariant IsSlug(slug) && |slug| <= MAX_SLUG_LENGTH
      invariant suffix > 1 ==> baseSlug in existing
      invariant forall i: nat | 2 <= i < suffix :: Candidate(baseSlug, i) in existing
      decreases |existing| + 2 - suffix
    {
      TakenCandidates(baseSlug, suffix, existing);
      suffix := suffix + 1;
      var suffixText := SuffixText(suffix);
      var prefix := TrimEnd(Take(baseSlug, MAX_SLUG_LENGTH - |suffixText|));
      CandidateIsSlug(baseSlug, suffix);
      slug := prefix + suffixText;
    }
    SlugIsValid(slug);
  }

  /** The signer accepts every slug that product creation can store. */
  lemma SlugIsValid(s: string)
    requires IsSlug(s) && |s| <= MAX_SLUG_LENGTH
    ensures ValidSlug(s)
  {
    SlugChars(s);
  }

  lemma {:induction false} SlugChars(s: string)
    requires SingleDashes(s)
    ensures forall i | 0 <= i < |s| :: IsSlugChar(s[i])
  {
    if s != "" {
      SlugChars(s[1..]);
      assert forall i | 1 <= i < |s| :: s[i] == s[1..][i - 1];
    }
  }
}
