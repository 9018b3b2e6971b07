/**
 Slugs, and the ids and hostnames built from them: slugs never contain two dashes in a row. A stable id joins slugs
 by single dashes and is cut at the length of a slug, so long parts hide the parts behind them.
 */
module Ids {
  import opened Wrappers
  import opened WhiteSpace
  import opened Words

  predicate SlugChar(c: char) {
    'a' <= c <= 'z' || '0' <= c <= '9'
  }

  /**
   Lower-casing as far as a slug can tell: the ASCII capitals, the Kelvin sign, and the dotted capital I are the only
   characters whose lower case is or contains a slug character. Any other capital stays outside the slug alphabet.
   */
  function Lower(s: string): string {
    if s == "" then ""
    else
      (if 'A' <= s[0] <= 'Z' then [s[0] - 'A' + 'a']
      else if s[0] == '\U{212A}' then "k"
      else if s[0] == '\U{130}' then "i\U{307}"
      else [s[0]]) + Lower(s[1..])
  }

  /** Every run of other characters becomes one dash. */
  function Dashed(s: string, inRun: bool): string {
    if s == "" then ""
    else if SlugChar(s[0]) then [s[0]] + Dashed(s[1..], false)
    else (if inRun then "" else "-") + Dashed(s[1..], true)
  }

  function StripLeft(s: string): string {
    if s != "" && s[0] == '-' then StripLeft(s[1..]) else s
  }

  function StripRight(s: string): string {
    if s != "" && s[|s| - 1] == '-' then StripRight(s[..|s| - 1]) else s
  }

  const MAX_SLUG := 63

  function Cut(s: string): string {
    if |s| <= MAX_SLUG then s else s[..MAX_SLUG]
  }

  function Slugify(value: string, fallback: string): string {
    var slug := Cut(StripRight(StripLeft(Dashed(Lower(Trim(value)), false))));
    if slug == "" then fallback else slug
  }

  ghost predicate SingleDashes(s: string) {
    forall i, j :: 0 <= i < j < |s| && j == i + 1 ==> !(s[i] == '-' && s[j] == '-')
  }

  predicate SlugChars(s: string) {
    forall i :: 0 <= i < |s| ==> SlugChar(s[i]) || s[i] == '-'
  }

  ghost predicate IsSlug(s: string) {
    s != "" && s[0] != '-' && SlugChars(s) && SingleDashes(s)
  }

  lemma {:induction false} DashedShape(s: string, inRun: bool)
    ensures SlugChars(Dashed(s, inRun)) && SingleDashes(Dashed(s, inRun))
    ensures inRun && Dashed(s, inRun) != "" ==> Dashed(s, inRun)[0] != '-'
    decreases |s|
  {
    if s != "" {
      DashedShape(s[1..], !SlugChar(s[0]));
    }
  }

  lemma {:induction false} StripLeftShape(s: string)
    requires SlugChars(s) && SingleDashes(s)
    ensures SlugChars(StripLeft(s)) && SingleDashes(StripLeft(s)) && (StripLeft(s) != "" ==> StripLeft(s)[0] != '-')
  {
    if s != "" && s[0] == '-' {
      StripLeftShape(s[1..]);
    }
  }

  lemma {:induction false} StripRightShape(s: string)
    ensures StripRight(s) <= s && (StripRight(s) != "" ==> StripRight(s)[|StripRight(s)| - 1] != '-')
  {
    if s != "" && s[|s| - 1] == '-' {
      StripRightShape(s[..|s| - 1]);
    }
  }

  /** Every slug starts with a letter or digit, has no two dashes in a row, and fits a DNS label. */
  lemma SlugifyMakesSlugs(value: string, fallback: string)
    requires IsSlug(fallback) && |fallback| <= MAX_SLUG
    ensures IsSlug(Slugify(value, fallback)) && |Slugify(value, fallback)| <= MAX_SLUG
  {
    var text := Lower(Trim(value));
    var dashed := Dashed(text, false);
    DashedShape(text, false);
    StripLeftShape(dashed);
    StripRightShape(StripLeft(dashed));
  }

  lemma {:induction false} DashedSlug(s: string)
    requires SlugChars(s) && SingleDashes(s)
    ensures Dashed(s, false) == s
    ensures s != "" && s[0] != '-' ==> Dashed(s, true) == s
    decreases |s|
  {
    if s != "" {
      assert forall i :: 0 <= i < |s[1..]| ==> s[1..][i] == s[i + 1];
      DashedSlug(s[1..]);
      if s[0] == '-' && |s| == 1 {
        assert s == "-" && s[1..] == "";
      }
    }
  }

  lemma {:induction false} LowerSlug(s: string)
    requires SlugChars(s)
    ensures Lower(s) == s
  {
    if s != "" {
      assert SlugChar(s[0]) || s[0] == '-';
      LowerSlug(s[1..]);
    }
  }

  /** Slugifying a slug again changes it exactly when truncation had left a dash at its end. */
  lemma ReslugifyExactly(s: string, fallback: string)
    requires IsSlug(s) && |s| <= MAX_SLUG
    ensures Slugify(s, fallback) == s <==> s[|s| - 1] != '-'
  {
    assert SlugChar(s[0]) && (SlugChar(s[|s| - 1]) || s[|s| - 1] == '-');
    assert Trim(s) == s;
    LowerSlug(s);
    DashedSlug(s);
    assert StripLeft(s) == s;
    StripRightShape(s);
    if s[|s| - 1] == '-' {
      assert s[..1] != "" && s[0] != '-';
      KeepsFirst(s);
    }
  }

  lemma {:induction false} KeepsFirst(s: string)
    requires s != "" && s[0] != '-'
    ensures StripRight(s) != ""
  {
    if s[|s| - 1] == '-' {
      KeepsFirst(s[..|s| - 1]);
    }
  }

  // ---- A slug is made of the words of its text ----

  lemma StripRightBehind(c: char, s: string)
    ensures StripRight([c] + s) == if StripRight(s) == "" && c == '-' then "" else [c] + StripRight(s)
    decreases |s|
  {
    var all := [c] + s;
    if s == "" {
      assert all[..0] == "";
    } else if s[|s| - 1] == '-' {
      assert all[..|all| - 1] == [c] + s[..|s| - 1];
      StripRightBehind(c, s[..|s| - 1]);
    }
  }

  /** The words of a text with a dash in front if the text does not begin with one of them. */
  function Behind(s: string): string {
    var words := WordsOf(s, SlugChar);
    if s != "" && !SlugChar(s[0]) && words != [] then "-" + Joined(words, "-") else Joined(words, "-")
  }

  lemma JoinedBlank(s: string)
    ensures Joined(WordsOf(s, SlugChar), "-") == "" <==> WordsOf(s, SlugChar) == []
    ensures Begins(s, SlugChar) ==> WordsOf(s, SlugChar) != []
  {
    WordsAreWords(s, SlugChar);
    JoinedShape(WordsOf(s, SlugChar), '-', SlugChar);
  }

  lemma JoinedHead(c: char, s: string)
    requires Begins(s, SlugChar) ==> WordsOf(s, SlugChar) != []
    ensures SlugChar(c) ==> Joined(WordsOf([c] + s, SlugChar), "-") == [c] + Behind(s)
    ensures !SlugChar(c) ==> WordsOf([c] + s, SlugChar) == WordsOf(s, SlugChar)
  {
    var words := WordsOf(s, SlugChar);
    assert ([c] + s)[1..] == s;
    if SlugChar(c) {
      if Begins(s, SlugChar) {
        assert ([[c] + words[0]] + words[1..])[1..] == words[1..];
        if |words| > 1 {
          assert ([c] + words[0]) + ("-" + Joined(words[1..], "-")) == [c] + (words[0] + ("-" + Joined(words[1..], "-")));
        }
      } else if words == [] {
        assert [[c]] + words == [[c]] && [c] + "" == [c];
      } else {
        assert ([[c]] + words)[1..] == words;
      }
    }
  }

  lemma {:induction false} DashedIsWords(s: string)
    ensures StripRight(Dashed(s, true)) == Joined(WordsOf(s, SlugChar), "-")
    ensures StripRight(Dashed(s, false)) == Behind(s)
  {
    if s != "" {
      var c, rest := s[0], s[1..];
      assert s == [c] + rest;
      DashedIsWords(rest);
      JoinedBlank(rest);
      JoinedHead(c, rest);
      if SlugChar(c) {
        StripRightBehind(c, Dashed(rest, false));
      } else {
        var more := Dashed(rest, true);
        StripRightBehind('-', more);
        assert "" + more == more && "-" + more == ['-'] + more;
      }
    }
  }

  lemma StrippedIsWords(s: string)
    ensures StripRight(StripLeft(Dashed(s, false))) == Joined(WordsOf(s, SlugChar), "-")
  {
    DashedIsWords(s);
    if s != "" && !SlugChar(s[0]) {
      var rest := Dashed(s[1..], true);
      DashedShape(s[1..], true);
      DashedIsWords(s[1..]);
      assert Dashed(s, false) == "-" + rest && ("-" + rest)[1..] == rest;
      assert StripLeft(rest) == rest;
    } else {
      assert StripLeft(Dashed(s, false)) == Dashed(s, false);
    }
  }

  lemma {:induction false} WordsAfterGap(gap: string, s: string)
    requires forall i :: 0 <= i < |gap| ==> !SlugChar(gap[i])
    ensures WordsOf(gap + s, SlugChar) == WordsOf(s, SlugChar)
  {
    if gap == "" {
      assert gap + s == s;
    } else {
      assert (gap + s)[1..] == gap[1..] + s;
      WordsAfterGap(gap[1..], s);
    }
  }

  lemma {:induction false} WordsBeforeGap(s: string, c: char)
    requires !SlugChar(c)
    ensures WordsOf(s + [c], SlugChar) == WordsOf(s, SlugChar)
  {
    if s == "" {
      assert s + [c] == [c] && [c][1..] == "";
    } else {
      assert (s + [c])[1..] == s[1..] + [c];
      WordsBeforeGap(s[1..], c);
    }
  }

  lemma {:induction false} LowerAppend(a: string, b: string)
    ensures Lower(a + b) == Lower(a) + Lower(b)
  {
    if a == "" {
      assert a + b == b;
    } else {
      assert (a + b)[1..] == a[1..] + b;
      LowerAppend(a[1..], b);
    }
  }

  lemma LowerSpace(c: char)
    requires IsSpace(c)
    ensures Lower([c]) == [c] && !SlugChar(c)
  {
    assert [c][1..] == "" && [c] + "" == [c];
  }

  lemma {:induction false} TrimLeftKeepsWords(s: string)
    ensures WordsOf(Lower(TrimLeft(s)), SlugChar) == WordsOf(Lower(s), SlugChar)
  {
    if s != "" && IsSpace(s[0]) {
      TrimLeftKeepsWords(s[1..]);
      LowerSpace(s[0]);
      assert Lower(s) == [s[0]] + Lower(s[1..]);
      WordsAfterGap([s[0]], Lower(s[1..]));
    }
  }

  lemma {:induction false} TrimRightKeepsWords(s: string)
    ensures WordsOf(Lower(TrimRight(s)), SlugChar) == WordsOf(Lower(s), SlugChar)
  {
    if s != "" && IsSpace(s[|s| - 1]) {
      var front, last := s[..|s| - 1], s[|s| - 1];
      assert s == front + [last];
      TrimRightKeepsWords(front);
      LowerSpace(last);
      LowerAppend(front, [last]);
      WordsBeforeGap(Lower(front), last);
    }
  }

  /** The slug of any text: its runs of letters and digits in lower case, joined by single dashes and cut at 63 characters. */
  lemma SlugIsWords(value: string, fallback: string)
    ensures var words := WordsOf(Lower(value), SlugChar);
            Slugify(value, fallback) == if words == [] then fallback else Cut(Joined(words, "-"))
  {
    TrimLeftKeepsWords(value);
    TrimRightKeepsWords(TrimLeft(value));
    hide Lower, Dashed, StripLeft, StripRight, WordsOf, Joined;
    StrippedIsWords(Lower(Trim(value)));
    JoinedBlank(Lower(Trim(value)));
  }

  // ---- Texts with the same slug ----

  predicate AsciiLetter(c: char) {
    'a' <= c <= 'z' || 'A' <= c <= 'Z'
  }

  /** Neither a letter or digit of a slug nor one of the characters whose lower case contains one. */
  predicate Outside(c: char) {
    !AsciiLetter(c) && !('0' <= c <= '9') && c != '\U{212A}' && c != '\U{130}'
  }

  /** The characters are equal, the two cases of one ASCII letter, or both outside the slug alphabet. */
  predicate Alike(c: char, d: char) {
    c == d || (AsciiLetter(c) && AsciiLetter(d) && (c as int - d as int == 32 || d as int - c as int == 32)) || (Outside(c) && Outside(d))
  }

  function LowerChar(c: char): string {
    if 'A' <= c <= 'Z' then [c - 'A' + 'a'] else if c == '\U{212A}' then "k" else if c == '\U{130}' then "i\U{307}" else [c]
  }

  ghost predicate SameWords(a: string, b: string) {
    WordsOf(a, SlugChar) == WordsOf(b, SlugChar) && (Begins(a, SlugChar) <==> Begins(b, SlugChar))
  }

  lemma SameWordsBehind(c: char, d: char, a: string, b: string)
    requires SameWords(a, b) && (c == d || (!SlugChar(c) && !SlugChar(d)))
    ensures SameWords([c] + a, [d] + b)
  {
    assert ([c] + a)[1..] == a && ([d] + b)[1..] == b;
  }

  lemma {:induction false} AlikeTextsShareWords(s: string, t: string)
    requires |s| == |t| && forall i :: 0 <= i < |s| ==> Alike(s[i], t[i])
    ensures SameWords(Lower(s), Lower(t))
  {
    if s != "" {
      var a, b := Lower(s[1..]), Lower(t[1..]);
      assert forall i :: 0 <= i < |s[1..]| ==> s[1..][i] == s[i + 1] && t[1..][i] == t[i + 1];
      AlikeTextsShareWords(s[1..], t[1..]);
      assert Alike(s[0], t[0]);
      assert Lower(s) == LowerChar(s[0]) + a && Lower(t) == LowerChar(t[0]) + b;
      if s[0] == '\U{130}' {
        SameWordsBehind('\U{307}', '\U{307}', a, b);
        SameWordsBehind('i', 'i', ['\U{307}'] + a, ['\U{307}'] + b);
        assert LowerChar(s[0]) + a == ['i'] + (['\U{307}'] + a) && LowerChar(t[0]) + b == ['i'] + (['\U{307}'] + b);
      } else {
        SameWordsBehind(LowerChar(s[0])[0], LowerChar(t[0])[0], a, b);
        assert LowerChar(s[0]) == [LowerChar(s[0])[0]] && LowerChar(t[0]) == [LowerChar(t[0])[0]];
      }
    }
  }

  /** Texts that differ only in the case of ASCII letters and in which other characters stand between them have the same slug. */
  lemma AlikeTextsShareASlug(s: string, t: string, fallback: string)
    requires |s| == |t| && forall i :: 0 <= i < |s| ==> Alike(s[i], t[i])
    ensures Slugify(s, fallback) == Slugify(t, fallback)
  {
    hide Slugify;
    AlikeTextsShareWords(s, t);
    SlugIsWords(s, fallback);
    SlugIsWords(t, fallback);
  }

  // ---- Stable ids ----

  function SlugParts(parts: seq<string>): seq<string> {
    seq(|parts|, i requires 0 <= i < |parts| => Slugify(parts[i], "x"))
  }

  function JoinDashed(slugs: seq<string>): string {
    if slugs == [] then "" else if |slugs| == 1 then slugs[0] else slugs[0] + "-" + JoinDashed(slugs[1..])
  }

  function StableId(prefix: string, parts: seq<string>): string {
    Slugify(prefix + "-" + JoinDashed(SlugParts(parts)), prefix)
  }

  /** A slug that truncation left no dash on. */
  ghost predicate IsClean(s: string) {
    IsSlug(s) && s[|s| - 1] != '-'
  }

  /** What a text contributes to an id: its slug, without a dash that truncation may have left. */
  function Part(text: string): string {
    StripRight(Slugify(text, "x"))
  }

  function Parts(texts: seq<string>): seq<string> {
    seq(|texts|, i requires 0 <= i < |texts| => Part(texts[i]))
  }

  ghost predicate AllSlugs(slugs: seq<string>) {
    forall i :: 0 <= i < |slugs| ==> IsSlug(slugs[i])
  }

  function AllStripped(slugs: seq<string>): seq<string> {
    seq(|slugs|, i requires 0 <= i < |slugs| => StripRight(slugs[i]))
  }

  lemma WithoutLastDash(s: string)
    requires IsSlug(s) && s[|s| - 1] == '-'
    ensures IsClean(s[..|s| - 1])
  {
    var front := s[..|s| - 1];
    assert |s| > 1;
    assert forall i :: 0 <= i < |front| ==> front[i] == s[i];
    assert front[|front| - 1] == s[|s| - 2] != '-';
    assert SingleDashes(front) by {
      hide SlugChars, SlugChar;
    }
  }

  lemma StripSlug(s: string)
    requires IsSlug(s)
    ensures IsClean(StripRight(s)) && s == StripRight(s) + if s[|s| - 1] == '-' then "-" else ""
  {
    if s[|s| - 1] == '-' {
      var front := s[..|s| - 1];
      WithoutLastDash(s);
      assert s == front + "-";
      assert StripRight(front) == front by {
        hide SingleDashes, SlugChars;
      }
    }
  }

  lemma PartIsClean(text: string)
    ensures IsClean(Part(text)) && |Part(text)| <= MAX_SLUG
  {
    SlugifyMakesSlugs(text, "x");
    StripSlug(Slugify(text, "x"));
  }

  predicate EndsInRun(s: string, inRun: bool) {
    if s == "" then inRun else !SlugChar(s[|s| - 1])
  }

  lemma {:induction false} DashedAppend(s: string, t: string, inRun: bool)
    ensures Dashed(s + t, inRun) == Dashed(s, inRun) + Dashed(t, EndsInRun(s, inRun))
    decreases |s|
  {
    if s == "" {
      assert s + t == t;
    } else {
      var run := !SlugChar(s[0]);
      assert (s + t)[1..] == s[1..] + t;
      DashedAppend(s[1..], t, run);
      assert EndsInRun(s, inRun) == EndsInRun(s[1..], run);
      var first := if SlugChar(s[0]) then [s[0]] else if inRun then "" else "-";
      assert (first + Dashed(s[1..], run)) + Dashed(t, EndsInRun(s, inRun)) == first + (Dashed(s[1..], run) + Dashed(t, EndsInRun(s, inRun)));
    }
  }

  lemma {:induction false} StripRightAppend(a: string, b: string)
    requires StripRight(b) != ""
    ensures StripRight(a + b) == a + StripRight(b)
    decreases |b|
  {
    if b[|b| - 1] == '-' {
      assert (a + b)[..|a + b| - 1] == a + b[..|b| - 1];
      StripRightAppend(a, b[..|b| - 1]);
    }
  }

  /** A dash behind a slug takes the place of one that truncation left. */
  lemma DashedBehindSlug(p: string, rest: string)
    requires IsSlug(p)
    ensures Dashed(p + ("-" + rest), true) == StripRight(p) + ("-" + Dashed(rest, true))
  {
    DashedAppend(p, "-" + rest, true);
    DashedSlug(p);
    StripSlug(p);
    assert ("-" + rest)[1..] == rest;
    assert SlugChar(p[|p| - 1]) || p[|p| - 1] == '-';
    if p[|p| - 1] == '-' {
      assert (StripRight(p) + "-") + Dashed(rest, true) == StripRight(p) + ("-" + Dashed(rest, true));
    }
  }

  lemma {:induction false} JoinedChars(slugs: seq<string>)
    requires AllSlugs(slugs)
    ensures SlugChars(JoinDashed(slugs))
  {
    if |slugs| > 1 {
      JoinedChars(slugs[1..]);
    }
  }

  lemma StripBehindSlug(p: string, rest: string, stripped: string)
    requires IsSlug(p) && StripRight(Dashed(rest, true)) == stripped != ""
    ensures StripRight(Dashed(p + ("-" + rest), true)) == StripRight(p) + ("-" + stripped)
  {
    hide Dashed, StripRight;
    var front, dashed := StripRight(p) + "-", Dashed(rest, true);
    DashedBehindSlug(p, rest);
    StripRightAppend(front, dashed);
    assert StripRight(p) + ("-" + dashed) == front + dashed;
    assert front + stripped == StripRight(p) + ("-" + stripped);
  }

  lemma JoinDashedHead(slugs: seq<string>)
    requires |slugs| > 1
    ensures JoinDashed(slugs) == slugs[0] + ("-" + JoinDashed(slugs[1..]))
  {
    var rest := JoinDashed(slugs[1..]);
    assert slugs[0] + "-" + rest == slugs[0] + ("-" + rest);
  }

  lemma {:induction false} JoinedDashed(slugs: seq<string>)
    requires slugs != [] && AllSlugs(slugs)
    ensures StripRight(Dashed(JoinDashed(slugs), true)) == JoinDashed(AllStripped(slugs)) != ""
    decreases |slugs|
  {
    var p, stripped := slugs[0], AllStripped(slugs);
    StripSlug(p);
    if |slugs| == 1 {
      DashedSlug(p);
    } else {
      assert stripped[1..] == AllStripped(slugs[1..]);
      JoinedDashed(slugs[1..]);
      JoinDashedHead(slugs);
      JoinDashedHead(stripped);
      StripBehindSlug(p, JoinDashed(slugs[1..]), JoinDashed(stripped[1..]));
    }
  }

  /** A text of slug characters that starts with a letter or digit passes the first steps of slugifying unchanged. */
  lemma FirstStepsKeep(text: string)
    requires text != "" && SlugChar(text[0]) && SlugChars(text)
    ensures Lower(Trim(text)) == text
    ensures StripLeft(Dashed(text, false)) == Dashed(text, true)
  {
    assert SlugChar(text[|text| - 1]) || text[|text| - 1] == '-';
    assert Trim(text) == text;
    LowerSlug(text);
  }

  lemma SlugifyJoined(slugs: seq<string>, fallback: string)
    requires slugs != [] && AllSlugs(slugs)
    ensures Slugify(JoinDashed(slugs), fallback) == Cut(JoinDashed(AllStripped(slugs)))
  {
    JoinedChars(slugs);
    JoinedDashed(slugs);
    JoinedStarts(slugs);
    hide Lower, Trim, Dashed, StripLeft, StripRight, JoinDashed, AllStripped;
    FirstStepsKeep(JoinDashed(slugs));
  }

  lemma JoinedStarts(slugs: seq<string>)
    requires slugs != [] && AllSlugs(slugs)
    ensures JoinDashed(slugs) != "" && SlugChar(JoinDashed(slugs)[0])
  {
    assert SlugChar(slugs[0][0]);
  }

  /** An id is its prefix and what its texts contribute, joined by dashes and cut at 63 characters, whatever the texts are. */
  lemma StableIdIs(prefix: string, texts: seq<string>)
    requires IsClean(prefix) && texts != []
    ensures StableId(prefix, texts) == Cut(JoinDashed([prefix] + Parts(texts)))
  {
    var slugs := [prefix] + SlugParts(texts);
    forall i | 0 <= i < |slugs|
      ensures IsSlug(slugs[i])
    {
      if i > 0 {
        SlugifyMakesSlugs(texts[i - 1], "x");
      }
    }
    assert slugs[1..] == SlugParts(texts);
    assert JoinDashed(slugs) == prefix + "-" + JoinDashed(SlugParts(texts));
    SlugifyJoined(slugs, prefix);
    StripSlug(prefix);
    assert AllStripped(slugs) == [prefix] + Parts(texts);
  }

  /** What the cut leaves of a last part with this much room. */
  function Left(part: string, room: int): string {
    if room <= 0 then "" else if |part| <= room then part else part[..room]
  }

  /** Texts with a common front are cut alike exactly when what follows agrees as far as the cut leaves it. */
  lemma CutsAgreeExactly(front: string, b: string, c: string, room: int)
    requires room == MAX_SLUG - |front|
    ensures Cut(front + b) == Cut(front + c) <==> Left(b, room) == Left(c, room)
  {
    if room >= 0 {
      assert Cut(front + b) == front + Left(b, room) && Cut(front + c) == front + Left(c, room);
      assert (front + Left(b, room))[|front|..] == Left(b, room) && (front + Left(c, room))[|front|..] == Left(c, room);
    } else {
      assert Cut(front + b) == front[..MAX_SLUG] == Cut(front + c);
    }
  }

  lemma JoinThree(a: string, b: string, c: string)
    ensures JoinDashed([a, b, c]) == (a + ("-" + (b + "-"))) + c
  {
    JoinDashedHead([a, b, c]);
    JoinDashedHead([b, c]);
    assert [a, b, c][1..] == [b, c] && [b, c][1..] == [c];
    assert a + ("-" + (b + ("-" + c))) == (a + ("-" + (b + "-"))) + c;
  }

  lemma IdOfTwo(prefix: string, a: string, b: string)
    requires IsClean(prefix)
    ensures StableId(prefix, [a, b]) == Cut((prefix + ("-" + (Part(a) + "-"))) + Part(b))
  {
    hide Part, StableId;
    StableIdIs(prefix, [a, b]);
    assert [prefix] + Parts([a, b]) == [prefix, Part(a), Part(b)];
    JoinThree(prefix, Part(a), Part(b));
  }

  /**
   Two ids that differ in their last text only are equal exactly when what the texts contribute agrees as far as the cut
   leaves it: behind a first part of 63 characters less the prefix and two dashes, nothing is left and every text will do.
   */
  lemma StableIdsAgreeExactly(prefix: string, a: string, b: string, c: string)
    requires IsClean(prefix)
    ensures var room := MAX_SLUG - |prefix| - |Part(a)| - 2;
            StableId(prefix, [a, b]) == StableId(prefix, [a, c]) <==> Left(Part(b), room) == Left(Part(c), room)
  {
    hide Part, StableId;
    var front, x, y := prefix + ("-" + (Part(a) + "-")), Part(b), Part(c);
    IdOfTwo(prefix, a, b);
    IdOfTwo(prefix, a, c);
    CutsAgreeExactly(front, x, y, MAX_SLUG - |prefix| - |Part(a)| - 2);
  }

  // ---- Environment rows and jobs ----

  lemma PrefixesAreClean()
    ensures IsClean("env") && IsClean("dep") && IsClean("job") && |"env"| == |"dep"| == |"job"| == 3
  {
  }

  /** The id under which a service's environment row for a key is stored. */
  function EnvRowId(service: string, key: string): string {
    StableId("env", [service, key])
  }

  /**
   Two keys of a service share one row exactly when their slugs, which ignore case and treat every other character as a
   dash, agree as far as the cut leaves them: always so behind a service id of 58 characters.
   */
  lemma EnvRowsAgreeExactly(service: string, key: string, key': string)
    ensures EnvRowId(service, key) == EnvRowId(service, key')
        <==> Left(Part(key), 58 - |Part(service)|) == Left(Part(key'), 58 - |Part(service)|)
  {
    hide Part, StableId;
    PrefixesAreClean();
    StableIdsAgreeExactly("env", service, key, key');
  }

  /** So keys that differ in case and punctuation only, such as API_KEY and api-key, share a row. */
  lemma AlikeKeysShareARow(service: string, key: string, key': string)
    requires |key| == |key'| && forall i :: 0 <= i < |key| ==> Alike(key[i], key'[i])
    ensures EnvRowId(service, key) == EnvRowId(service, key')
  {
    hide Slugify, StableId;
    AlikeTextsShareASlug(key, key', "x");
    EnvRowsAgreeExactly(service, key, key');
  }

  /** A job's id is computed from its type, its target's type and id, and its creation time. */
  function JobId(jobType: string, targetType: string, target: string, createdAt: string): string {
    StableId("job", [jobType, targetType, target, createdAt])
  }

  function JobFront(jobType: string, targetType: string): (front: string)
    ensures |front| == |Part(jobType)| + |Part(targetType)| + 6
  {
    "job" + ("-" + (Part(jobType) + ("-" + (Part(targetType) + "-"))))
  }

  lemma JoinFive(a: string, b: string, c: string, d: string, e: string)
    ensures JoinDashed([a, b, c, d, e]) == (a + ("-" + (b + ("-" + (c + "-"))))) + (d + ("-" + e))
  {
    JoinDashedHead([a, b, c, d, e]);
    JoinDashedHead([b, c, d, e]);
    assert [a, b, c, d, e][1..] == [b, c, d, e] && [b, c, d, e][1..] == [c, d, e];
    JoinThree(c, d, e);
    var tail := d + ("-" + e);
    assert (c + ("-" + (d + "-"))) + e == c + ("-" + tail);
    assert a + ("-" + (b + ("-" + (c + ("-" + tail))))) == (a + ("-" + (b + ("-" + (c + "-"))))) + tail;
  }

  /** The id of a job is the first 63 characters of what its types, its target and its creation time contribute. */
  lemma JobIdIs(jobType: string, targetType: string, target: string, createdAt: string)
    ensures JobId(jobType, targetType, target, createdAt)
         == Cut(JobFront(jobType, targetType) + (Part(target) + ("-" + Part(createdAt))))
  {
    hide Part, StableId;
    var texts := [jobType, targetType, target, createdAt];
    PrefixesAreClean();
    StableIdIs("job", texts);
    assert ["job"] + Parts(texts) == ["job", Part(jobType), Part(targetType), Part(target), Part(createdAt)];
    JoinFive("job", Part(jobType), Part(targetType), Part(target), Part(createdAt));
  }

  /**
   The types leave the target and the time what they leave of 57 characters, 31 for the jobs that build and deploy a
   deployment. Behind a target id that long the creation time counts for nothing: every such job has the same id.
   */
  lemma LongTargetsShareAJobId(jobType: string, targetType: string, target: string, t: string, t': string)
    requires |Part(target)| >= 57 - |Part(jobType)| - |Part(targetType)|
    ensures JobId(jobType, targetType, target, t) == JobId(jobType, targetType, target, t')
  {
    hide Part, JobId;
    var front, part := JobFront(jobType, targetType), Part(target);
    JobIdIs(jobType, targetType, target, t);
    JobIdIs(jobType, targetType, target, t');
    SameCut(front, part, "-" + Part(t), "-" + Part(t'));
  }

  lemma SameCut(front: string, middle: string, x: string, y: string)
    requires |front| + |middle| >= MAX_SLUG
    ensures Cut(front + (middle + x)) == Cut(front + (middle + y))
  {
    assert front + (middle + x) == (front + middle) + x && front + (middle + y) == (front + middle) + y;
    assert Cut((front + middle) + x) == (front + middle)[..MAX_SLUG] == Cut((front + middle) + y);
  }
}
