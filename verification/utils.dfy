/**
 * The helper library of the BookWorm client (src/lib/utils.ts): text truncation,
 * avatar initials, reading-progress percentage and the shelf label and colour tables.
 */
module Utils {
  import opened Types
  import opened Strings

  // ---------------------------------------------------------------------------
  // truncateText

  const DefaultMaxLength: int := 150
  const Ellipsis: string := "..."

  /**
   * `truncateText(text, maxLength = 150)`: the empty text stays empty, a text that fits
   * is returned as it is, and a longer one is cut to `maxLength` characters and marked
   * with an ellipsis. A negative `maxLength` cuts everything (`substring` clamps it to 0).
   */
  function TruncateText(text: string, maxLength: int := DefaultMaxLength): (r: string)
    ensures text == "" ==> r == ""
    ensures text != "" && |text| <= maxLength ==> r == text
    ensures text != "" && |text| > maxLength && maxLength >= 0 ==>
      |r| == maxLength + 3 && r[..maxLength] == text[..maxLength] && r[maxLength..] == Ellipsis
    ensures text != "" && |text| > maxLength && maxLength < 0 ==> r == Ellipsis
  {
    if text == "" then ""
    else if |text| <= maxLength then text
    else Substring(text, 0, maxLength) + Ellipsis
  }

  /** With the default limit a text of at most 150 characters is kept, a longer one becomes 153. */
  lemma TruncateTextDefault(text: string)
    ensures |text| <= 150 ==> TruncateText(text) == text
    ensures |text| > 150 ==> |TruncateText(text)| == 153 && TruncateText(text)[..150] == text[..150]
  {
  }

  // ---------------------------------------------------------------------------
  // getInitials

  /** What a JavaScript expression produces: a string, or a thrown TypeError. */
  datatype Outcome = Returns(value: string) | ThrowsTypeError

  /** JavaScript `s[0]`: the first character, or `undefined` for the empty string. */
  function FirstChar(s: string): Option<char>
  {
    if s == "" then None else Some(s[0])
  }

  /** What `undefined` turns into when concatenated to a string. */
  const Undefined: string := "undefined"

  /**
   * `getInitials` as the source writes it. `name.split(" ")` keeps empty parts, so a
   * leading, trailing or doubled space makes `parts[0][0]` or `parts[1][0]` undefined:
   * one undefined operand is concatenated as the text "undefined", two of them add up
   * to NaN, which has no `toUpperCase` and throws.
   */
  function GetInitialsAsWritten(name: string): (r: Outcome)
    ensures name == "" ==> r == Returns("U")
    ensures name != "" && ' ' !in name ==> r == Returns(Upper(Substring(name, 0, 2)))
  {
    if name == "" then Returns("U")
    else
      var parts := Split(name, ' ');
      if |parts| >= 2 then
        match (FirstChar(parts[0]), FirstChar(parts[1]))
        case (Some(a), Some(b)) => Returns(Upper([a, b]))
        case (Some(a), None) => Returns(Upper([a] + Undefined))
        case (None, Some(b)) => Returns(Upper(Undefined + [b]))
        case (None, None) => ThrowsTypeError
      else Returns(Upper(Substring(name, 0, 2)))
  }

  /** A name with a trailing space gets the initials "AUNDEFINED". */
  lemma GetInitialsTrailingSpace()
    ensures GetInitialsAsWritten("Ann ") == Returns("AUNDEFINED")
  {
    SplitFree("", ' ');
    SplitCons("Ann", ' ', "");
    assert "Ann" + [' '] + "" == "Ann ";
    assert Split("Ann ", ' ') == ["Ann", ""];
    UpperUndefined();
  }

  lemma UpperUndefined()
    ensures Upper(['A'] + Undefined) == "AUNDEFINED"
  {
    var s := ['A'] + Undefined;
    assert s == "Aundefined";
    forall k | 0 <= k < |s| ensures Upper(s)[k] == "AUNDEFINED"[k] {
    }
  }

  /** A name that is a lone space throws: both parts are empty. */
  lemma GetInitialsLoneSpace()
    ensures GetInitialsAsWritten(" ") == ThrowsTypeError
  {
    SplitFree("", ' ');
    SplitCons("", ' ', "");
    assert "" + [' '] + "" == " ";
    assert Split(" ", ' ') == ["", ""];
  }

  /** The non-empty parts, in order: every non-empty part is kept as often as it occurs. */
  function NonEmpty(parts: seq<string>): (r: seq<string>)
    ensures |r| <= |parts|
    ensures "" !in r
    ensures forall k :: 0 <= k < |r| ==> r[k] in parts
    ensures (forall k :: 0 <= k < |parts| ==> parts[k] != "") ==> r == parts
  {
    if parts == [] then []
    else (if parts[0] == "" then [] else [parts[0]]) + NonEmpty(parts[1..])
  }

  /** Dropping the empty parts of two lists one after the other keeps the order. */
  lemma {:induction false} NonEmptyAppend(a: seq<string>, b: seq<string>)
    ensures NonEmpty(a + b) == NonEmpty(a) + NonEmpty(b)
  {
    if a == [] {
      assert a + b == b;
    } else {
      assert (a + b)[1..] == a[1..] + b;
      NonEmptyAppend(a[1..], b);
    }
  }

  /** Every non-empty part is kept as often as it occurs. */
  lemma {:induction false} NonEmptyKeepsParts(parts: seq<string>, y: string)
    requires y != ""
    ensures multiset(NonEmpty(parts))[y] == multiset(parts)[y]
  {
    if parts != [] {
      NonEmptyKeepsParts(parts[1..], y);
      assert parts == [parts[0]] + parts[1..];
    }
  }

  /** The words of a name: the parts of `name.split(" ")` that are not empty. */
  function Words(name: string): (ws: seq<string>)
    ensures forall k :: 0 <= k < |ws| ==> ws[k] != "" && ' ' !in ws[k]
  {
    SplitPartsFree(name, ' ');
    NonEmpty(Split(name, ' '))
  }

  /** A name without a space is one word, or none when it is empty. */
  lemma WordsOfWord(x: string)
    requires ' ' !in x
    ensures x != "" ==> Words(x) == [x]
    ensures x == "" ==> Words(x) == []
  {
    SplitFree(x, ' ');
  }

  /** The words on both sides of a space are the words of the name, in order. */
  lemma WordsAppend(x: string, y: string)
    ensures Words(x + " " + y) == Words(x) + Words(y)
  {
    assert x + " " + y == x + [' '] + y;
    SplitAppend(x, ' ', y);
    NonEmptyAppend(Split(x, ' '), Split(y, ' '));
  }

  /** Every part of `name.split(" ")` is non-empty: no leading, trailing or doubled space. */
  predicate WellSpaced(name: string)
  {
    forall k :: 0 <= k < |Split(name, ' ')| ==> Split(name, ' ')[k] != ""
  }

  /**
   * `getInitials` as evidently intended: the first letters of the first two words,
   * or the first two letters of a single word, upper-cased; "U" for a name without words.
   */
  function GetInitials(name: string): (r: string)
    ensures 1 <= |r| <= 2
    ensures ' ' !in r
    ensures name == "" ==> r == "U"
    ensures Words(name) == [] ==> r == "U"
  {
    InitialsOfWords(Words(name))
  }

  /** The initials of a list of words: "U" for none, else as `GetInitials` describes. */
  function InitialsOfWords(ws: seq<string>): (r: string)
    requires forall k :: 0 <= k < |ws| ==> ws[k] != "" && ' ' !in ws[k]
    ensures 1 <= |r| <= 2
    ensures ' ' !in r
    ensures ws == [] ==> r == "U"
  {
    if |ws| == 0 then "U"
    else if |ws| >= 2 then Upper([ws[0][0], ws[1][0]])
    else Upper(Substring(ws[0], 0, 2))
  }

  /** On a name without empty parts the corrected function agrees with the source. */
  lemma GetInitialsAgrees(name: string)
    requires WellSpaced(name)
    ensures GetInitialsAsWritten(name) == Returns(GetInitials(name))
  {
    var parts := Split(name, ' ');
    assert Words(name) == parts;
    if |parts| < 2 {
      assert IndexOf(name, ' ') == |name|;
      assert parts[0] == name;
    }
  }

  /** A first and a last name give the upper-cased first letter of each. */
  lemma GetInitialsOfFullName(first: string, last: string)
    requires first != "" && last != ""
    requires ' ' !in first && ' ' !in last
    ensures GetInitials(first + " " + last) == [UpperChar(first[0]), UpperChar(last[0])]
  {
    WordsAppend(first, last);
    WordsOfWord(first);
    WordsOfWord(last);
  }

  /**
   * The corrected initials of words separated by single spaces: the first letters of the
   * first two words, or the first two letters of a lone word, upper-cased.
   */
  lemma GetInitialsOfWords(ws: seq<string>)
    requires |ws| >= 1
    requires forall k :: 0 <= k < |ws| ==> ws[k] != "" && ' ' !in ws[k]
    ensures |ws| >= 2 ==> GetInitials(Join(ws, ' ')) == [UpperChar(ws[0][0]), UpperChar(ws[1][0])]
    ensures |ws| == 1 ==> GetInitials(Join(ws, ' ')) == Upper(Substring(ws[0], 0, 2))
  {
    var name := Join(ws, ' ');
    assert Split(name, ' ') == ws by {
      SplitJoin(ws, ' ');
    }
    assert GetInitials(name) == InitialsOfWords(ws);
    if |ws| >= 2 {
      UpperPair(ws[0][0], ws[1][0]);
    }
  }

  lemma UpperPair(c: char, d: char)
    ensures Upper([c, d]) == [UpperChar(c), UpperChar(d)]
  {
  }

  /** Extra spaces before, after or between the words do not change the corrected initials. */
  lemma GetInitialsIgnoresExtraSpaces(x: string, y: string)
    ensures GetInitials(" " + x) == GetInitials(x)
    ensures GetInitials(x + " ") == GetInitials(x)
    ensures GetInitials(x + "  " + y) == GetInitials(x + " " + y)
  {
    WordsLeadingSpace(x);
    WordsTrailingSpace(x);
    WordsDoubleSpace(x, y);
  }

  lemma WordsLeadingSpace(x: string)
    ensures Words(" " + x) == Words(x)
  {
    SpaceEnds(x);
    WordsOfWord("");
    WordsAppend("", x);
  }

  lemma WordsTrailingSpace(x: string)
    ensures Words(x + " ") == Words(x)
  {
    SpaceEnds(x);
    WordsOfWord("");
    WordsAppend(x, "");
  }

  lemma WordsDoubleSpace(x: string, y: string)
    ensures Words(x + "  " + y) == Words(x + " " + y)
  {
    SpaceTwice(x, y);
    WordsTrailingSpace(x);
    WordsAppend(x + " ", y);
    WordsAppend(x, y);
  }

  lemma SpaceEnds(x: string)
    ensures "" + " " + x == " " + x
    ensures x + " " + "" == x + " "
  {
  }

  lemma SpaceTwice(x: string, y: string)
    ensures x + "  " + y == (x + " ") + " " + y
  {
    assert "  " == " " + " ";
  }

  /** The corrected initials of "Ann " are those of "Ann": "AN". */
  lemma GetInitialsTrailingSpaceCorrected()
    ensures GetInitials("Ann ") == GetInitials("Ann") == "AN"
  {
    WordsTrailingSpace("Ann");
    assert "Ann" + " " == "Ann ";
    WordsOfWord("Ann");
    assert Substring("Ann", 0, 2) == "An";
  }

  /**
   * The source's initials of two space-free words, followed by nothing or by more
   * space-separated text: the upper-cased first letters of the two words.
   */
  lemma GetInitialsAsWrittenTwoParts(a: string, b: string, rest: string)
    requires a != "" && b != "" && ' ' !in a && ' ' !in b
    requires rest == "" || rest[0] == ' '
    ensures GetInitialsAsWritten(a + " " + b + rest) == Returns([UpperChar(a[0]), UpperChar(b[0])])
  {
    var name := a + " " + b + rest;
    assert name == a + [' '] + (b + rest);
    assert Split(name, ' ')[0] == a && Split(name, ' ')[1] == b by {
      SplitCons(a, ' ', b + rest);
      if rest == "" {
        assert b + rest == b;
        SplitFree(b, ' ');
      } else {
        assert b + rest == b + [' '] + rest[1..];
        SplitCons(b, ' ', rest[1..]);
      }
    }
    UpperPair(a[0], b[0]);
  }

  // ---------------------------------------------------------------------------
  // calculateReadingProgress

  /** `k` is `n / d` rounded half up (`Math.round`): k - 1/2 <= n/d < k + 1/2, for d > 0. */
  ghost predicate IsRoundHalfUp(k: int, n: int, d: int)
    requires d > 0
  {
    (2 * k - 1) * d <= 2 * n < (2 * k + 1) * d
  }

  /** `Math.round(n / d)` on exact rationals: floor(n/d + 1/2), for either sign of d. */
  function RoundDiv(n: int, d: int): (k: int)
    requires d != 0
    ensures d > 0 ==> IsRoundHalfUp(k, n, d)
    ensures d < 0 ==> IsRoundHalfUp(k, -n, -d)
  {
    var num, den := if d > 0 then n else -n, if d > 0 then d else -d;
    var q := (2 * num + den) / (2 * den);
    assert 2 * num + den == 2 * den * q + (2 * num + den) % (2 * den);
    assert (2 * q - 1) * den == 2 * den * q - den;
    assert (2 * q + 1) * den == 2 * den * q + den;
    q
  }

  /** Rounding half up is monotone in the numerator. */
  lemma RoundHalfUpMonotone(k1: int, n1: int, k2: int, n2: int, d: int)
    requires d > 0 && n1 <= n2
    requires IsRoundHalfUp(k1, n1, d) && IsRoundHalfUp(k2, n2, d)
    ensures k1 <= k2
  {
    assert (2 * k1 - 1) * d < (2 * k2 + 1) * d;
    CancelPositive(2 * k1 - 1, 2 * k2 + 1, d);
  }

  /** A strict inequality between multiples of a positive number holds between the factors. */
  lemma CancelPositive(a: int, b: int, d: int)
    requires d > 0 && a * d < b * d
    ensures a < b
  {
  }

  /** The rounded quotient reaches `m` exactly when the doubled numerator reaches (2m - 1)d. */
  lemma RoundHalfUpAtLeast(k: int, n: int, d: int, m: int)
    requires d > 0 && IsRoundHalfUp(k, n, d)
    ensures k >= m <==> 2 * n >= (2 * m - 1) * d
  {
    if k >= m {
      assert (2 * k - 1) * d - (2 * m - 1) * d == 2 * (k - m) * d;
    } else {
      assert (2 * k + 1) * d - (2 * m - 1) * d == 2 * (k - m + 1) * d;
      assert (k - m + 1) * d <= 0;
    }
  }

  /** The rounded value is unique: `Math.round` is a function of the exact quotient. */
  lemma RoundHalfUpUnique(k1: int, k2: int, n: int, d: int)
    requires d > 0
    requires IsRoundHalfUp(k1, n, d) && IsRoundHalfUp(k2, n, d)
    ensures k1 == k2
  {
    RoundHalfUpMonotone(k1, n, k2, n, d);
    RoundHalfUpMonotone(k2, n, k1, n, d);
  }

  function Min(a: int, b: int): int
  {
    if a <= b then a else b
  }

  /**
   * `calculateReadingProgress(pagesRead, totalPages)`: 0 when there are no pages,
   * otherwise the percentage read rounded half up, capped at 100 (with no lower clamp).
   */
  function CalculateReadingProgress(pagesRead: int, totalPages: int): (r: int)
    ensures totalPages == 0 ==> r == 0
    ensures r <= 100
    ensures totalPages > 0 && r < 100 ==> IsRoundHalfUp(r, 100 * pagesRead, totalPages)
    ensures totalPages < 0 && r < 100 ==> IsRoundHalfUp(r, -100 * pagesRead, -totalPages)
    ensures totalPages > 0 ==> (r == 100 <==> 200 * pagesRead >= 199 * totalPages)
    ensures totalPages > 0 && pagesRead >= totalPages ==> r == 100
    ensures totalPages > 0 && pagesRead >= 0 ==> r >= 0
  {
    if totalPages == 0 then 0
    else if totalPages < 0 then Min(RoundDiv(100 * pagesRead, totalPages), 100)
    else
      var k := RoundDiv(100 * pagesRead, totalPages);
      RoundHalfUpAtLeast(k, 100 * pagesRead, totalPages, 100);
      RoundHalfUpAtLeast(k, 100 * pagesRead, totalPages, 0);
      Min(k, 100)
  }

  // ---------------------------------------------------------------------------
  // getShelfLabel and getShelfColor

  /**
   * `getShelfLabel(shelf)`: the display label of a shelf key; a string that is not a
   * shelf key is shown as it is.
   */
  function GetShelfLabel(shelf: string): (r: string)
    ensures r == shelf <==> ParseShelf(shelf).None?
    ensures ParseShelf(shelf).Some? ==> ParseShelf(r).None?
  {
    if shelf == "wantToRead" then "Want to Read"
    else if shelf == "currentlyReading" then "Currently Reading"
    else if shelf == "read" then "Read"
    else shelf
  }

  /** Labelling twice is labelling once: no label is itself a shelf key. */
  lemma ShelfLabelIdempotent(shelf: string)
    ensures GetShelfLabel(GetShelfLabel(shelf)) == GetShelfLabel(shelf)
  {
  }

  /** The three shelves get three different labels. */
  lemma ShelfLabelsDistinct(a: Shelf, b: Shelf)
    ensures a != b ==> GetShelfLabel(ShelfKey(a)) != GetShelfLabel(ShelfKey(b))
  {
  }

  const GrayColor: string := "bg-gray-100 text-gray-800"

  /** `getShelfColor(shelf)`: the badge colour of a shelf key; gray for any other string. */
  function GetShelfColor(shelf: string): (r: string)
    ensures r == GrayColor <==> ParseShelf(shelf).None?
  {
    if shelf == "wantToRead" then "bg-blue-100 text-blue-800"
    else if shelf == "currentlyReading" then "bg-yellow-100 text-yellow-800"
    else if shelf == "read" then "bg-green-100 text-green-800"
    else GrayColor
  }

  /** The three shelves get three different colours. */
  lemma ShelfColorsDistinct(a: Shelf, b: Shelf)
    ensures a != b ==> GetShelfColor(ShelfKey(a)) != GetShelfColor(ShelfKey(b))
  {
  }
}
