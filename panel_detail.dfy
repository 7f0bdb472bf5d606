/**
 * The panel detail dialog: what it shows for a panel, and the conversion of a
 * numbered section into a letter.
 */
module PanelDetail {
  import opened Wrappers
  import opened Text
  import opened Panels

  /** A UTF-16 surrogate code unit, which cannot stand alone as a character here. */
  predicate IsSurrogate(u: int) {
    0xD800 <= u < 0xE000
  }

  /**
   * String.fromCharCode of one number: the code unit is the number modulo 2^16; a
   * lone surrogate unit is written as U+FFFD.
   */
  function FromCharCode(n: int): (r: string)
    ensures |r| == 1
  {
    var u := n % 0x1_0000;
    if IsSurrogate(u) then "�" else [u as char]
  }

  lemma FromCharCodeBelowSurrogates(n: int)
    requires 0 <= n < 0xD800
    ensures FromCharCode(n) == [n as char]
  {
    assert n % 0x1_0000 == n;
  }

  /**
   * getSectionLetter: a section whose leading integer is at least 1 becomes the
   * character 64 positions on ("1" is "A"); anything else is shown unchanged.
   */
  function SectionLetter(section: string): (r: string)
    ensures ParseInt(section).None? ==> r == section
    ensures ParseInt(section).Some? && ParseInt(section).value < 1 ==> r == section
    ensures ParseInt(section).Some? && ParseInt(section).value >= 1 ==> |r| == 1
  {
    match ParseInt(section)
    case Some(n) =>
      if n < 1 then section else FromCharCode(64 + n)
    case None => section
  }

  /** Sections 1 to 26 become the letters A to Z, in order. */
  lemma SectionNumberToLetter(n: int)
    requires 1 <= n <= 26
    ensures SectionLetter(IntToString(n)) == [('A' as int + n - 1) as char]
    ensures 'A' <= SectionLetter(IntToString(n))[0] <= 'Z'
  {
    ParseIntRoundTrip(n);
    assert SectionLetter(IntToString(n)) == FromCharCode(64 + n);
    FromCharCodeBelowSurrogates(64 + n);
  }

  /** Two numbered sections up to 26 share a letter only when they are the same section. */
  lemma SectionLettersDistinct(n: int, m: int)
    requires 1 <= n <= 26 && 1 <= m <= 26
    requires SectionLetter(IntToString(n)) == SectionLetter(IntToString(m))
    ensures n == m
  {
    SectionNumberToLetter(n);
    SectionNumberToLetter(m);
  }

  /** parseInt of a numeral of two digits. */
  lemma ParseTwoDigits(s: string)
    requires |s| == 2 && IsDigit(s[0]) && IsDigit(s[1])
    ensures ParseInt(s) == Some((s[0] as int - '0' as int) * 10 + (s[1] as int - '0' as int))
  {
    assert !IsSpace(s[0]);
    assert TrimStart(s) == s;
    assert DigitPrefix(s[1..]) == s[1..];
    assert DigitPrefix(s) == s;
    assert s[..1] == [s[0]] && [s[0]][..0] == [];
    assert DigitsValue([s[0]]) == s[0] as int - '0' as int;
    assert DigitsValue(s) == DigitsValue(s[..1]) * 10 + (s[1] as int - '0' as int);
    assert !(s[0] == '-' || s[0] == '+');
  }

  /** A section read as a number from 1 on, below the surrogates, is that character. */
  lemma SectionLetterOfNumber(s: string, n: int)
    requires ParseInt(s) == Some(n) && 1 <= n < 0xD800 - 64
    ensures SectionLetter(s) == [(64 + n) as char]
  {
    assert SectionLetter(s) == FromCharCode(64 + n);
    FromCharCodeBelowSurrogates(64 + n);
  }

  lemma FirstAndLastLetter()
    ensures SectionLetter("1") == "A"
    ensures SectionLetter("26") == "Z"
  {
    assert !IsSpace('1') && TrimStart("1") == "1" && DigitPrefix("1") == "1";
    SectionLetterOfNumber("1", 1);
    ParseTwoDigits("26");
    SectionLetterOfNumber("26", 26);
  }

  /** Only the leading integer counts: "2B" is section 2, shown as "B". */
  lemma LeadingIntegerCounts()
    ensures SectionLetter("2B") == "B"
  {
    ParseIntReadsLeadingNumber("", 2, "B");
    assert "" + IntToString(2) + "B" == "2B";
  }

  /** Named sections and numbers below 1 are shown as they are. */
  lemma NonNumberedSectionsUnchanged()
    ensures SectionLetter("North") == "North"
    ensures SectionLetter("0") == "0"
  {
    assert !IsSpace('N') && !IsDigit('N');
    assert TrimStart("North") == "North";
    assert DigitPrefix("North") == [];
    ParseIntRoundTrip(0);
    assert IntToString(0) == "0";
  }

  /** Past 26 the code runs out of letters: section 27 is shown as "[". */
  lemma SectionPastZ()
    ensures SectionLetter("27") == "["
  {
    ParseTwoDigits("27");
    SectionLetterOfNumber("27", 27);
  }

  /** What the dialog shows for a panel. */
  datatype Detail = Detail(
    serialCode: string,
    palletNo: string,
    section: string,
    row: Option<int>,
    column: Option<int>,
    status: string,
    scannedAt: Option<Timestamp>)

  /** The dialog renders nothing without a panel. */
  function DetailView(panel: Option<Panel>, sectionName: string): (d: Option<Detail>)
    ensures d.None? <==> panel.None?
    ensures d.Some? ==> d.value.serialCode == panel.value.serialCode
    ensures d.Some? ==> d.value.palletNo == panel.value.palletNo
    ensures d.Some? ==> d.value.section == SectionLetter(sectionName)
    ensures d.Some? ==> (d.value.status == "Scanned" <==> IsScanned(panel.value))
    ensures d.Some? ==> (d.value.status == "Pending" <==> !IsScanned(panel.value))
    ensures d.Some? ==> d.value.scannedAt == panel.value.scannedAt
  {
    match panel
    case None => None
    case Some(p) =>
      Some(Detail(p.serialCode, p.palletNo, SectionLetter(sectionName), p.rowNumber,
        p.columnNumber, if IsScanned(p) then "Scanned" else "Pending", p.scannedAt))
  }
}
