/**
 * The client's small helpers: the e-mail check of the login and sign-up forms, the
 * avatar initials, and the rating bands that pick a rank title and a text or
 * background colour class.
 */
module Helper {
  import opened Wrappers
  import Text

  // ---------------------------------------------------------------- e-mail

  /** A character the class `[^\s@]` admits. */
  predicate Plain(c: char) {
    !Text.IsSpace(c) && c != '@'
  }

  /** A non-empty run of `[^\s@]`. */
  predicate PlainRun(s: string) {
    s != [] && forall i :: 0 <= i < |s| ==> Plain(s[i])
  }

  /**
   * `/^[^\s@]+@[^\s@]+\.[^\s@]+$/` matches with the `@` at `at` and the `\.` at `dot`.
   */
  predicate MatchAt(s: string, at: int, dot: int) {
    && 0 <= at < dot < |s|
    && s[at] == '@' && s[dot] == '.'
    && PlainRun(s[..at]) && PlainRun(s[at + 1..dot]) && PlainRun(s[dot + 1..])
  }

  /** The regular expression matches the whole string (some way to place `@` and `\.`). */
  predicate RegexMatches(s: string) {
    exists at, dot :: 0 <= at < dot < |s| && MatchAt(s, at, dot)
  }

  /** The position of the first `c` in `s`, or `|s|` when there is none. */
  function IndexOf(s: string, c: char): (r: nat)
    ensures r <= |s|
    ensures r < |s| ==> s[r] == c
    ensures forall i :: 0 <= i < r ==> s[i] != c
  {
    if s == [] then 0 else if s[0] == c then 0 else 1 + IndexOf(s[1..], c)
  }

  /**
   * `validateEmail`: no whitespace anywhere, one `@` with something before it, and
   * after it a `.` with something on both sides.
   */
  predicate ValidateEmail(email: string) {
    var at := IndexOf(email, '@');
    && (forall i :: 0 <= i < |email| ==> !Text.IsSpace(email[i]))
    && 0 < at < |email|
    && '@' !in email[at + 1..]
    && |email| - at >= 4
    && '.' in email[at + 2..|email| - 1]
  }

  /** The check accepts exactly the strings the regular expression matches. */
  lemma ValidateEmailIff(email: string)
    ensures ValidateEmail(email) <==> RegexMatches(email)
  {
    if ValidateEmail(email) {
      ValidEmailMatches(email);
    }
    if RegexMatches(email) {
      var at, dot :| MatchAt(email, at, dot);
      MatchValidEmail(email, at, dot);
    }
  }

  /** An accepted address has a match: its first `@` and a `.` after the next character. */
  lemma ValidEmailMatches(email: string)
    requires ValidateEmail(email)
    ensures RegexMatches(email)
  {
    var at := IndexOf(email, '@');
    var d := email[at + 2..|email| - 1];
    var k :| 0 <= k < |d| && d[k] == '.';
    var dot := at + 2 + k;
    assert email[dot] == '.';
    forall i | 0 <= i < |email| && i != at
      ensures Plain(email[i])
    {
      if i > at {
        assert email[i] in email[at + 1..];
      }
    }
    assert PlainRun(email[..at]);
    assert PlainRun(email[at + 1..dot]);
    assert PlainRun(email[dot + 1..]);
    assert MatchAt(email, at, dot);
  }

  /** Every match passes the check. */
  lemma MatchValidEmail(email: string, at: int, dot: int)
    requires MatchAt(email, at, dot)
    ensures ValidateEmail(email)
  {
    PlainRunChars(email, at, dot);
    assert IndexOf(email, '@') == at by {
      IndexOfFirst(email, '@', at);
    }
    assert '@' !in email[at + 1..];
    assert email[at + 2..|email| - 1][dot - at - 2] == '.';
  }

  /** Each character of a match other than the `@` and the `\.` is plain. */
  lemma PlainRunChars(s: string, at: int, dot: int)
    requires MatchAt(s, at, dot)
    ensures forall i :: 0 <= i < |s| && i != at && i != dot ==> Plain(s[i])
    ensures forall i :: 0 <= i < |s| ==> !Text.IsSpace(s[i])
  {
    forall i | 0 <= i < |s| && i != at && i != dot
      ensures Plain(s[i])
    {
      if i < at {
        assert s[i] == s[..at][i];
      } else if i < dot {
        assert s[i] == s[at + 1..dot][i - at - 1];
      } else {
        assert s[i] == s[dot + 1..][i - dot - 1];
      }
    }
  }

  /** A `c` preceded by no other `c` is the first one. */
  lemma {:induction false} IndexOfFirst(s: string, c: char, k: int)
    requires 0 <= k < |s| && s[k] == c
    requires forall i :: 0 <= i < k ==> s[i] != c
    ensures IndexOf(s, c) == k
  {
    if k > 0 {
      IndexOfFirst(s[1..], c, k - 1);
    }
  }

  /** An accepted address holds exactly one `@`. */
  lemma ValidEmailOneAt(email: string, i: int, j: int)
    requires ValidateEmail(email)
    requires 0 <= i < |email| && 0 <= j < |email| && email[i] == '@' && email[j] == '@'
    ensures i == j
  {
  }

  // ---------------------------------------------------------------- initials

  /** `word[0]` concatenated to a string: the first character, or "undefined" for an empty word. */
  function FirstChar(word: string): (r: string)
    ensures word != [] ==> r == [word[0]]
  {
    if word == [] then "undefined" else [word[0]]
  }

  /** What the loop has appended after its first `n` rounds. */
  function Appended(words: seq<string>, n: nat): string
    requires n <= |words|
  {
    if n == 0 then "" else Appended(words, n - 1) + FirstChar(words[n - 1])
  }

  /** The number of rounds: `Math.min(words.length, 2)`. */
  function Rounds(words: seq<string>): nat {
    if |words| < 2 then |words| else 2
  }

  /** `getInitials` as written: an empty word (two spaces in a row, a leading space) appends "undefined". */
  function Initials(name: Option<string>): string {
    if name.None? || name.value == "" then ""
    else
      var words := Text.SplitSpace(name.value);
      Text.ToUpper(Appended(words, Rounds(words)))
  }

  /** `getInitials(name)`: the counted `for` loop of the source. */
  method GetInitials(name: Option<string>) returns (r: string)
    ensures r == Initials(name)
  {
    if name.None? || name.value == "" {
      return "";
    }
    var words := Text.SplitSpace(name.value);
    var intials := "";
    var index := 0;
    var rounds := if |words| < 2 then |words| else 2;
    while index < rounds
      invariant 0 <= index <= rounds
      invariant intials == Appended(words, index)
    {
      intials := intials + FirstChar(words[index]);
      index := index + 1;
    }
    r := Text.ToUpper(intials);
  }

  /** ASCII upper-casing of one character. */
  function Upper(c: char): char {
    if 'a' <= c <= 'z' then (c as int - 32) as char else c
  }

  /**
   * The initials of a name whose first two words are non-empty: one upper-cased first
   * character per word, at most two.
   */
  lemma InitialsOfWords(name: string)
    requires name != ""
    requires forall i :: 0 <= i < Rounds(Text.SplitSpace(name)) ==> Text.SplitSpace(name)[i] != ""
    ensures var words := Text.SplitSpace(name);
      && |Initials(Some(name))| == Rounds(words) <= 2
      && forall i :: 0 <= i < Rounds(words) ==> Initials(Some(name))[i] == Upper(words[i][0])
  {
    var words := Text.SplitSpace(name);
    AppendedFirstChars(words);
    UpperChars(Appended(words, Rounds(words)));
  }

  /** `toUpperCase` upper-cases each character in place. */
  lemma UpperChars(s: string)
    ensures |Text.ToUpper(s)| == |s|
    ensures forall i :: 0 <= i < |s| ==> Text.ToUpper(s)[i] == Upper(s[i])
  {
  }

  /** When the counted words are non-empty, the loop appends one first character per word. */
  lemma AppendedFirstChars(words: seq<string>)
    requires forall i :: 0 <= i < Rounds(words) ==> words[i] != ""
    ensures var a := Appended(words, Rounds(words));
      && |a| == Rounds(words)
      && forall i :: 0 <= i < Rounds(words) ==> a[i] == words[i][0]
  {
    var a := Appended(words, Rounds(words));
    if Rounds(words) == 2 {
      assert Appended(words, 1) == [words[0][0]];
      assert a == [words[0][0], words[1][0]];
    } else if Rounds(words) == 1 {
      assert a == [words[0][0]];
    }
  }

  /** An absent or empty name has no initials. */
  lemma InitialsEmpty()
    ensures Initials(None) == "" && Initials(Some("")) == ""
  {
  }

  /** Two spaces between the words: the second initial comes out as "UNDEFINED". */
  lemma InitialsDoubleSpace()
    ensures Initials(Some("a  b")) == "AUNDEFINED"
  {
    SplitDoubleSpace();
    var words := ["a", "", "b"];
    assert Appended(words, 1) == "a";
    assert Appended(words, 2) == "aundefined";
    LowerWordUpper();
  }

  /** `"aundefined".toUpperCase()`. */
  lemma LowerWordUpper()
    ensures Text.ToUpper("aundefined") == "AUNDEFINED"
  {
    UpperChars("aundefined");
  }

  /** How `"a  b".split(" ")` comes apart. */
  lemma SplitDoubleSpace()
    ensures Text.SplitSpace("a  b") == ["a", "", "b"]
  {
    assert "a  b"[1..] == "  b" && "  b"[1..] == " b" && " b"[1..] == "b" && "b"[1..] == [];
    assert Text.SplitSpace("") == [""];
    assert ['b'] + "" == "b";
    assert Text.SplitSpace("b") == ["b"];
    assert Text.SplitSpace(" b") == [""] + ["b"];
    assert Text.SplitSpace("  b") == [""] + ["", "b"];
    assert Text.SplitSpace("a  b") == [['a'] + ""] + ["", "b"];
    assert ['a'] + "" == "a";
    assert [['a'] + ""] + ["", "b"] == ["a", "", "b"];
  }

  /** The words of a name that are not empty. */
  function NonEmptyWords(words: seq<string>): (r: seq<string>)
    ensures forall i :: 0 <= i < |r| ==> r[i] != ""
  {
    if words == [] then []
    else (if words[0] == "" then [] else [words[0]]) + NonEmptyWords(words[1..])
  }

  /** The intended initials: first characters of the first two non-empty words, upper-cased. */
  function CorrectedInitials(name: Option<string>): string {
    if name.None? then ""
    else
      var words := NonEmptyWords(Text.SplitSpace(name.value));
      Text.ToUpper(Appended(words, Rounds(words)))
  }

  /** The intended initials are at most two upper-cased first characters of words. */
  lemma CorrectedInitialsSpec(name: string)
    ensures var words := NonEmptyWords(Text.SplitSpace(name));
      && |CorrectedInitials(Some(name))| == Rounds(words) <= 2
      && forall i :: 0 <= i < Rounds(words) ==> CorrectedInitials(Some(name))[i] == Upper(words[i][0])
  {
    var words := NonEmptyWords(Text.SplitSpace(name));
    AppendedFirstChars(words);
    UpperChars(Appended(words, Rounds(words)));
  }

  /** The intended initials of the double-space name. */
  lemma CorrectedInitialsDoubleSpace()
    ensures CorrectedInitials(Some("a  b")) == "AB"
  {
    SplitDoubleSpace();
    assert NonEmptyWords(["a", "", "b"]) == ["a", "b"];
    assert Appended(["a", "b"], 1) == "a";
    assert Appended(["a", "b"], 2) == "ab";
    UpperChars("ab");
    assert Text.ToUpper("ab") == "AB";
  }

  // ---------------------------------------------------------------- rating bands

  /** How many of the ascending `thresholds` the rating has reached: its band. */
  function Band(thresholds: seq<int>, rating: int): (r: nat)
    ensures r <= |thresholds|
  {
    if thresholds == [] || rating < thresholds[0] then 0
    else 1 + Band(thresholds[1..], rating)
  }

  /** A higher rating is never in a lower band. */
  lemma {:induction false} BandMonotone(thresholds: seq<int>, a: int, b: int)
    requires a <= b
    ensures Band(thresholds, a) <= Band(thresholds, b)
  {
    if thresholds != [] && a >= thresholds[0] {
      BandMonotone(thresholds[1..], a, b);
    }
  }

  /** The band of a rating is the first threshold above it: every threshold before it is reached. */
  lemma {:induction false} BandBounds(thresholds: seq<int>, rating: int)
    ensures var k := Band(thresholds, rating);
      && (forall i :: 0 <= i < k ==> thresholds[i] <= rating)
      && (0 < k ==> thresholds[k - 1] <= rating)
      && (k < |thresholds| ==> rating < thresholds[k])
  {
    if thresholds != [] && rating >= thresholds[0] {
      BandBounds(thresholds[1..], rating);
    }
  }

  /** The rank thresholds of `getRankTitle`. */
  const RankThresholds: seq<int> := [1200, 1400, 1600, 1900, 2100, 2300, 2400, 3000]

  /** The titles, lowest band first. */
  const RankTitles: seq<string> := ["Newbie", "Pupil", "Specialist", "Expert", "Candidate Master",
    "Master", "International Master", "Grandmaster", "Legendary Grandmaster"]

  /** JavaScript truthiness of an optional rating. */
  predicate Rated(rating: Option<int>) {
    rating.Some? && rating.value != 0
  }

  /** `getRankTitle(rating)`. */
  function RankTitle(rating: Option<int>): string {
    if !Rated(rating) then "Unrated"
    else
      var r := rating.value;
      if r < 1200 then "Newbie"
      else if r < 1400 then "Pupil"
      else if r < 1600 then "Specialist"
      else if r < 1900 then "Expert"
      else if r < 2100 then "Candidate Master"
      else if r < 2300 then "Master"
      else if r < 2400 then "International Master"
      else if r < 3000 then "Grandmaster"
      else "Legendary Grandmaster"
  }

  /** `getRankTitle` is the title table indexed by the band of the rating. */
  lemma RankTitleTable(rating: Option<int>)
    ensures !Rated(rating) ==> RankTitle(rating) == "Unrated"
    ensures Rated(rating) ==> RankTitle(rating) == RankTitles[Band(RankThresholds, rating.value)]
  {
    if Rated(rating) {
      var k := Band(RankThresholds, rating.value);
      BandBounds(RankThresholds, rating.value);
      assert k in {0, 1, 2, 3, 4, 5, 6, 7, 8};
    }
  }

  /** The position of a title in the Newbie ... Legendary Grandmaster order, and -1 for "Unrated". */
  function TitleRank(title: string): int {
    if title in RankTitles then IndexIn(RankTitles, title) else -1
  }

  function IndexIn(s: seq<string>, x: string): (r: nat)
    requires x in s
    ensures r < |s| && s[r] == x
    ensures forall i :: 0 <= i < r ==> s[i] != x
  {
    if s[0] == x then 0 else 1 + IndexIn(s[1..], x)
  }

  /** A higher (truthy) rating never gets an earlier title. */
  lemma RankTitleMonotone(a: int, b: int)
    requires a != 0 && b != 0 && a <= b
    ensures TitleRank(RankTitle(Some(a))) <= TitleRank(RankTitle(Some(b)))
  {
    RankTitleTable(Some(a));
    RankTitleTable(Some(b));
    BandMonotone(RankThresholds, a, b);
    TitlesDistinct(Band(RankThresholds, a));
    TitlesDistinct(Band(RankThresholds, b));
  }

  /** Each title sits at its own position. */
  lemma TitlesDistinct(k: nat)
    requires k < |RankTitles|
    ensures TitleRank(RankTitles[k]) == k
  {
    assert forall i, j :: 0 <= i < j < |RankTitles| ==> RankTitles[i] != RankTitles[j];
  }

  /** The thresholds of both colour helpers. */
  const ColorThresholds: seq<int> := [1200, 1400, 1600, 1900, 2100, 2300, 2400]

  const TextColors: seq<string> := ["text-gray-500", "text-green-600", "text-cyan-600", "text-blue-600",
    "text-fuchsia-700", "text-orange-400", "text-orange-500", "text-red-600"]

  const BgColors: seq<string> := ["bg-gray-100", "bg-green-50", "bg-cyan-50", "bg-blue-50",
    "bg-fuchsia-100", "bg-orange-50", "bg-orange-100", "bg-red-100"]

  /** `getColorByRating(rating)`. */
  function ColorByRating(rating: Option<int>): string {
    if !Rated(rating) then "text-gray-500"
    else
      var r := rating.value;
      if r < 1200 then "text-gray-500"
      else if r < 1400 then "text-green-600"
      else if r < 1600 then "text-cyan-600"
      else if r < 1900 then "text-blue-600"
      else if r < 2100 then "text-fuchsia-700"
      else if r < 2300 then "text-orange-400"
      else if r < 2400 then "text-orange-500"
      else "text-red-600"
  }

  /** `getBgColorByRating(rating)`. */
  function BgColorByRating(rating: Option<int>): string {
    if !Rated(rating) then "bg-gray-100"
    else
      var r := rating.value;
      if r < 1200 then "bg-gray-100"
      else if r < 1400 then "bg-green-50"
      else if r < 1600 then "bg-cyan-50"
      else if r < 1900 then "bg-blue-50"
      else if r < 2100 then "bg-fuchsia-100"
      else if r < 2300 then "bg-orange-50"
      else if r < 2400 then "bg-orange-100"
      else "bg-red-100"
  }

  /** The colour band: 0 for an absent or zero rating, else the band of the rating. */
  function ColorBand(rating: Option<int>): (r: nat)
    ensures r < |TextColors| && r < |BgColors|
  {
    if Rated(rating) then Band(ColorThresholds, rating.value) else 0
  }

  /** Both colour helpers are tables over the same bands; an absent, zero or sub-1200 rating is gray. */
  lemma ColorTables(rating: Option<int>)
    ensures ColorByRating(rating) == TextColors[ColorBand(rating)]
    ensures BgColorByRating(rating) == BgColors[ColorBand(rating)]
    ensures !Rated(rating) || rating.value < 1200 ==>
      ColorByRating(rating) == "text-gray-500" && BgColorByRating(rating) == "bg-gray-100"
  {
    if Rated(rating) {
      var k := Band(ColorThresholds, rating.value);
      BandBounds(ColorThresholds, rating.value);
      assert k in {0, 1, 2, 3, 4, 5, 6, 7};
    }
  }

  /** The eight text colour classes are different. */
  lemma TextColorsDistinct()
    ensures forall i, j :: 0 <= i < j < |TextColors| ==> TextColors[i] != TextColors[j]
  {
  }

  /** The eight background classes are different. */
  lemma BgColorsDistinct()
    ensures forall i, j :: 0 <= i < j < |BgColors| ==> BgColors[i] != BgColors[j]
  {
  }

  /** The text and background colours change at exactly the same ratings. */
  lemma SameThresholds(a: Option<int>, b: Option<int>)
    ensures ColorByRating(a) == ColorByRating(b) <==> BgColorByRating(a) == BgColorByRating(b)
  {
    ColorTables(a);
    ColorTables(b);
    TextColorsDistinct();
    BgColorsDistinct();
    var ka, kb := ColorBand(a), ColorBand(b);
    assert TextColors[ka] == TextColors[kb] <==> ka == kb;
    assert BgColors[ka] == BgColors[kb] <==> ka == kb;
  }

}
