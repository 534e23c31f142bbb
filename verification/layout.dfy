/** Where a day's note lives and what a fresh note contains: the folder
    scheme `<year>/<MM>-<Month>/<DD>-<Weekday>/<category>.md`, the one-line
    title written into new notes, and the recogniser for notes that hold
    nothing but whitespace or a title. */
module Layout {
  import opened Dates
  import opened Text
  import opened Settings

  /** A path as its sequence of segments, the root's segments first. */
  type Path = seq<string>

  /** The three folder names under the root for a date. */
  function FolderPath(d: Date): (p: Path)
    requires ValidDate(d)
    ensures |p| == 3
    ensures AllDigits(p[0]) && ParseDigits(p[0]) == d.year && p[0][0] != '0'
    ensures |p[1]| > 3 && IsDigit(p[1][0]) && IsDigit(p[1][1]) && p[1][2] == '-'
    ensures DigitValue(p[1][0]) * 10 + DigitValue(p[1][1]) == d.month && p[1][3..] == MonthName(d.month)
    ensures |p[2]| > 3 && IsDigit(p[2][0]) && IsDigit(p[2][1]) && p[2][2] == '-'
    ensures DigitValue(p[2][0]) * 10 + DigitValue(p[2][1]) == d.day && p[2][3..] == WeekdayName(d)
  {
    [NatToString(d.year), Pad2(d.month) + "-" + MonthName(d.month), Pad2(d.day) + "-" + WeekdayName(d)]
  }

  function FileName(c: Category): string {
    Name(c) + ".md"
  }

  /** `<root>/<year>/<MM>-<Month>/<DD>-<Weekday>/<category>.md`. */
  function FilePath(root: Path, d: Date, c: Category): Path
    requires ValidDate(d)
  {
    root + FolderPath(d) + [FileName(c)]
  }

  /** Distinct (date, category) pairs under one root never share a file. */
  lemma FilePathInjective(root: Path, d: Date, c: Category, d': Date, c': Category)
    requires ValidDate(d) && ValidDate(d')
    requires FilePath(root, d, c) == FilePath(root, d', c')
    ensures d == d' && c == c'
  {
    var p, p' := FilePath(root, d, c), FilePath(root, d', c');
    assert p[|root|..|root| + 3] == FolderPath(d);
    assert p'[|root|..|root| + 3] == FolderPath(d');
    assert p[|root| + 3] == FileName(c);
    assert p'[|root| + 3] == FileName(c');
    NatToStringInjective(d.year, d'.year);
    assert Name(c) == FileName(c)[..|Name(c)|];
    assert Name(c') == FileName(c')[..|Name(c')|];
  }

  /** `f"{d.day} {weekday} {month} {d.year}"`: the day is not zero-padded. */
  function DayText(d: Date): string
    requires ValidDate(d)
  {
    NatToString(d.day) + " " + WeekdayName(d) + " " + MonthName(d.month) + " " + NatToString(d.year)
  }

  /** The title notes carried before the category suffix was introduced. */
  function LegacyTitle(d: Date): string
    requires ValidDate(d)
  {
    "# " + DayText(d)
  }

  /** The content a new note receives: `# <day text> - <Category>`. */
  function Title(d: Date, c: Category): string
    requires ValidDate(d)
  {
    "# " + (DayText(d) + CategorySuffix(c))
  }

  function CategorySuffix(c: Category): string {
    " - " + Capitalize(Name(c))
  }

  /** `_is_file_empty` on the text of an existing file: after stripping
      surrounding whitespace, nothing is left, or the current title, or the
      legacy title. */
  predicate TitleOnly(content: string, d: Date, c: Category)
    requires ValidDate(d)
  {
    var t := Strip(content);
    t == [] || t == Title(d, c) || t == LegacyTitle(d)
  }

  lemma CapitalizedNames(c: Category)
    ensures Capitalize(Name(c)) == match c
      case Work => "Work"
      case Note => "Note"
      case Workout => "Workout"
      case Youtube => "Youtube"
      case News => "News"
  {
    var n := Name(c);
    assert Capitalize(n) == [UpperChar(n[0])] + Lower(n[1..]);
  }

  lemma LegacyTitleTrimmed(d: Date)
    requires ValidDate(d)
    ensures Trimmed(LegacyTitle(d))
  {
    var y := NatToString(d.year);
    var mid := NatToString(d.day) + " " + WeekdayName(d) + " " + MonthName(d.month) + " ";
    assert DayText(d) == mid + y;
    assert (mid + y)[|mid + y| - 1] == y[|y| - 1];
    assert IsDigit(y[|y| - 1]);
    TrimmedJoin("# ", DayText(d));
  }

  lemma TitleTrimmed(d: Date, c: Category)
    requires ValidDate(d)
    ensures Trimmed(Title(d, c))
  {
    var cap := Capitalize(Name(c));
    CapitalizedNames(c);
    assert Title(d, c) == ("# " + DayText(d) + " - ") + cap;
  }

  lemma StripRecognised(lead: string, t: string, trail: string, d: Date, c: Category)
    requires ValidDate(d) && AllSpace(lead) && AllSpace(trail) && Trimmed(t)
    requires t == [] || t == Title(d, c) || t == LegacyTitle(d)
    ensures TitleOnly(lead + t + trail, d, c)
  {
    StripSurrounded(lead, t, trail);
  }

  /** What `_create_file` writes is recognised as title-only for the same
      date and category, and so is the legacy title, either of them wrapped
      in whitespace. */
  lemma TitleRecognised(d: Date, c: Category, lead: string, trail: string)
    requires ValidDate(d) && AllSpace(lead) && AllSpace(trail)
    ensures TitleOnly(lead + Title(d, c) + trail, d, c)
  {
    TitleTrimmed(d, c);
    StripRecognised(lead, Title(d, c), trail, d, c);
  }

  lemma LegacyTitleRecognised(d: Date, c: Category, lead: string, trail: string)
    requires ValidDate(d) && AllSpace(lead) && AllSpace(trail)
    ensures TitleOnly(lead + LegacyTitle(d) + trail, d, c)
  {
    LegacyTitleTrimmed(d);
    StripRecognised(lead, LegacyTitle(d), trail, d, c);
  }

  /** Text made only of whitespace, including no text at all, counts as empty. */
  lemma BlankRecognised(w: string, d: Date, c: Category)
    requires ValidDate(d) && AllSpace(w)
    ensures TitleOnly(w, d, c)
  {
  }

  lemma NamesHaveNoSpace(d: Date)
    requires ValidDate(d)
    ensures ' ' !in WeekdayName(d) && ' ' !in MonthName(d.month)
    ensures ' ' !in NatToString(d.day) && ' ' !in NatToString(d.year)
  {
    var w, m := NatToString(d.day), NatToString(d.year);
    assert forall i :: 0 <= i < |w| ==> IsDigit(w[i]);
    assert forall i :: 0 <= i < |m| ==> IsDigit(m[i]);
  }

  lemma MonthNameInjective(m: int, m': int)
    requires 1 <= m <= 12 && 1 <= m' <= 12
    requires MonthName(m) == MonthName(m')
    ensures m == m'
  {
  }

  /** The day text, followed by anything that does not start with a digit,
      determines the date. */
  lemma DayTextInjective(d: Date, d': Date, rest: string, rest': string)
    requires ValidDate(d) && ValidDate(d')
    requires rest == [] || !IsDigit(rest[0])
    requires rest' == [] || !IsDigit(rest'[0])
    requires DayText(d) + rest == DayText(d') + rest'
    ensures d == d' && rest == rest'
  {
    NamesHaveNoSpace(d);
    NamesHaveNoSpace(d');
    SplitFields(NatToString(d.day), WeekdayName(d), MonthName(d.month), NatToString(d.year), rest,
                NatToString(d'.day), WeekdayName(d'), MonthName(d'.month), NatToString(d'.year), rest');
    NatToStringInjective(d.day, d'.day);
    MonthNameInjective(d.month, d'.month);
    NatToStringInjective(d.year, d'.year);
  }

  lemma CapitalizedNameInjective(c: Category, c': Category)
    requires Capitalize(Name(c)) == Capitalize(Name(c'))
    ensures c == c'
  {
    CapitalizedNames(c);
    CapitalizedNames(c');
  }

  lemma TitleInjective(d: Date, c: Category, d': Date, c': Category)
    requires ValidDate(d) && ValidDate(d')
    requires Title(d, c) == Title(d', c')
    ensures d == d' && c == c'
  {
    var rest, rest' := CategorySuffix(c), CategorySuffix(c');
    DropPrefix("# ", DayText(d) + rest, DayText(d') + rest');
    DayTextInjective(d, d', rest, rest');
    assert Capitalize(Name(c)) == rest[3..] && Capitalize(Name(c')) == rest'[3..];
    CapitalizedNameInjective(c, c');
  }

  lemma TitleNotLegacy(d: Date, c: Category, d': Date)
    requires ValidDate(d) && ValidDate(d')
    ensures Title(d, c) != LegacyTitle(d')
  {
    var rest := CategorySuffix(c);
    if Title(d, c) == LegacyTitle(d') {
      assert DayText(d') + [] == DayText(d');
      DropPrefix("# ", DayText(d) + rest, DayText(d') + []);
      DayTextInjective(d, d', rest, []);
    }
  }

  /** The recogniser is exact on titles: the title written for one date and
      category counts as title-only for exactly that date and category. */
  lemma TitleOnlyExact(d: Date, c: Category, d': Date, c': Category)
    requires ValidDate(d) && ValidDate(d')
    ensures TitleOnly(Title(d, c), d', c') <==> d == d' && c == c'
  {
    var t := Title(d, c);
    TitleTrimmed(d, c);
    TitleOnlyOfTrimmed(t, d', c');
    assert t[0] == '#';
    TitleNotLegacy(d, c, d');
    if t == Title(d', c') {
      TitleInjective(d, c, d', c');
    }
  }

  /** On a text without surrounding whitespace the recogniser is a plain comparison. */
  lemma TitleOnlyOfTrimmed(t: string, d: Date, c: Category)
    requires ValidDate(d) && Trimmed(t)
    ensures TitleOnly(t, d, c) <==> t == [] || t == Title(d, c) || t == LegacyTitle(d)
  {
    StripTrimmed(t);
  }
}
