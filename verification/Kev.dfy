/** Entries of the exploited-vulnerabilities catalogue, printed as feed titles and summaries. */
module Kev {
  import opened Text
  import Ingest

  // --- dates --------------------------------------------------------------------------------

  datatype Date = Date(year: int, month: int, day: int)

  predicate IsLeap(year: int) { year % 4 == 0 && (year % 100 != 0 || year % 400 == 0) }

  function DaysIn(year: int, month: int): int {
    if month == 2 then (if IsLeap(year) then 29 else 28)
    else if month in {4, 6, 9, 11} then 30
    else 31
  }

  predicate IsDate(d: Date) {
    1 <= d.year <= 9999 && 1 <= d.month <= 12 && 1 <= d.day <= DaysIn(d.year, d.month)
  }

  /** Leap years from year 1 on. */
  function LeapYears(year: nat): nat {
    if year == 0 then 0 else LeapYears(year - 1) + if IsLeap(year) then 1 else 0
  }

  lemma DivSteps(n: nat)
    ensures (n + 1) / 4 == n / 4 + if (n + 1) % 4 == 0 then 1 else 0
    ensures (n + 1) / 100 == n / 100 + if (n + 1) % 100 == 0 then 1 else 0
    ensures (n + 1) / 400 == n / 400 + if (n + 1) % 400 == 0 then 1 else 0
  {
  }

  /** Every fourth year is a leap year, but of the hundredth ones only every fourth. */
  lemma {:induction false} LeapYearsAre(year: nat)
    ensures LeapYears(year) == year / 4 - year / 100 + year / 400
  {
    if year > 0 {
      LeapYearsAre(year - 1);
      DivSteps(year - 1);
      LeapIff(year);
    }
  }

  lemma LeapIff(year: nat)
    ensures year % 400 == 0 ==> year % 100 == 0
    ensures year % 100 == 0 ==> year % 4 == 0
    ensures IsLeap(year) <==> year % 4 == 0 && (year % 100 == 0 ==> year % 400 == 0)
  {
    if year % 400 == 0 {
      assert year == 100 * (4 * (year / 400));
    }
    if year % 100 == 0 {
      assert year == 4 * (25 * (year / 100));
    }
  }

  /** A day is a date exactly if its month has it, the last of February in leap years only. */
  lemma MonthsAre(year: int, month: int, day: int)
    requires 1 <= year <= 9999 && 1 <= month <= 12
    ensures IsDate(Date(year, month, day)) <==>
      && 1 <= day <= 31 && (day == 31 ==> month in {1, 3, 5, 7, 8, 10, 12}) && (day >= 30 ==> month != 2)
      && (day == 29 && month == 2 ==> LeapYears(year) == LeapYears(year - 1) + 1)
  {
    hide IsLeap;
  }

  predicate IsDigit(c: char) { '0' <= c <= '9' }

  function DigitOf(c: char): int { c as int - '0' as int }

  function Digit(n: int): (c: char)
    requires 0 <= n < 10
    ensures IsDigit(c) && DigitOf(c) == n
  {
    ('0' as int + n) as char
  }

  function TwoDigits(n: int): string
    requires 0 <= n < 100
  {
    [Digit(n / 10), Digit(n % 10)]
  }

  function Iso(d: Date): (s: string)
    requires IsDate(d)
    ensures |s| == 10
  {
    TwoDigits(d.year / 100) + TwoDigits(d.year % 100) + "-" + TwoDigits(d.month) + "-" + TwoDigits(d.day)
  }

  /** The pattern `\d{4}-\d{2}-\d{2}`, over ASCII digits. */
  predicate LooksIso(s: string) {
    && |s| == 10 && s[4] == '-' && s[7] == '-'
    && IsDigit(s[0]) && IsDigit(s[1]) && IsDigit(s[2]) && IsDigit(s[3])
    && IsDigit(s[5]) && IsDigit(s[6]) && IsDigit(s[8]) && IsDigit(s[9])
  }

  function TwoAt(s: string, i: nat): int
    requires i + 1 < |s|
  {
    10 * DigitOf(s[i]) + DigitOf(s[i + 1])
  }

  function FromIso(s: string): Option<Date> {
    if !LooksIso(s) then None else
      var d := Date(100 * TwoAt(s, 0) + TwoAt(s, 2), TwoAt(s, 5), TwoAt(s, 8));
      if IsDate(d) then Some(d) else None
  }

  lemma IsoReadsBack(d: Date)
    requires IsDate(d)
    ensures FromIso(Iso(d)) == Some(d)
  {
    var s := Iso(d);
    assert s == [Digit(d.year / 100 / 10), Digit(d.year / 100 % 10),
                 Digit(d.year % 100 / 10), Digit(d.year % 100 % 10), '-',
                 Digit(d.month / 10), Digit(d.month % 10), '-', Digit(d.day / 10), Digit(d.day % 10)];
  }

  lemma DigitPair(a: char, b: char)
    requires IsDigit(a) && IsDigit(b)
    ensures TwoDigits(10 * DigitOf(a) + DigitOf(b)) == [a, b]
  {
  }

  /** A date is printed as it was written. */
  lemma IsoIsText(s: string)
    requires FromIso(s).Some?
    ensures Iso(FromIso(s).value) == s
  {
    var d := FromIso(s).value;
    DigitPair(s[0], s[1]);
    DigitPair(s[2], s[3]);
    DigitPair(s[5], s[6]);
    DigitPair(s[8], s[9]);
    assert d.year / 100 == TwoAt(s, 0) && d.year % 100 == TwoAt(s, 2);
    assert s == s[0..2] + s[2..4] + "-" + s[5..7] + "-" + s[8..10];
  }

  // --- titles -------------------------------------------------------------------------------

  function DigitsRun(s: string): (n: nat)
    ensures n <= |s|
    ensures n < |s| ==> !IsDigit(s[n])
    ensures forall i :: 0 <= i < n ==> IsDigit(s[i])
  {
    if s != "" && IsDigit(s[0]) then 1 + DigitsRun(s[1..]) else 0
  }

  /** How much of the text the pattern `CVE-\d{4}-\d{4,}` takes from its start. */
  function CvePrefix(s: string): (n: Option<nat>)
    ensures n.Some? ==> 13 <= n.value <= |s|
  {
    if 13 <= |s| && s[..4] == "CVE-" && IsDigit(s[4]) && IsDigit(s[5]) && IsDigit(s[6]) && IsDigit(s[7]) && s[8] == '-'
       && DigitsRun(s[9..]) >= 4
    then Some(9 + DigitsRun(s[9..]))
    else None
  }

  predicate IsCve(s: string) { CvePrefix(s) == Some(|s|) }

  /** A JSON string with something in it. */
  function Filled(value: Option<string>): Option<string> {
    if value.Some? && Strip(value.value) != "" then value else None
  }

  /** The members of one catalogue entry this module reads, those that are JSON strings. */
  datatype Raw = Raw(
    cveId: Option<string>, name: Option<string>, description: Option<string>,
    ransomwareUse: Option<string>, dueDate: Option<string>)

  /** The title and summary of an entry; one without a well-formed identifier is left out. */
  function Entry(raw: Raw): Option<(string, Option<string>)> {
    match Filled(raw.cveId)
    case None => None
    case Some(text) => if IsCve(Strip(text)) then Some((Title(Strip(text), raw.name), Summary(raw))) else None
  }

  function Title(cve: string, name: Option<string>): string {
    match Filled(name)
    case Some(text) => cve + ": " + Strip(text)
    case None => cve
  }

  // --- summaries ----------------------------------------------------------------------------

  const RANSOMWARE := "Known to be used in ransomware campaigns."
  const DUE := "Federal remediation due "
  const DUE_LENGTH: nat := 35

  function DueSentence(iso: string): string { DUE + iso + "." }

  function DueDate(raw: Raw): (due: Option<Date>)
    ensures due.Some? ==> IsDate(due.value)
  {
    match Filled(raw.dueDate)
    case Some(text) => FromIso(Strip(text))
    case None => None
  }

  predicate UsedInRansomware(raw: Raw) {
    var use := Filled(raw.ransomwareUse);
    use.Some? && Lower(Strip(use.value)) == "known"
  }

  function Facts(ransomware: bool, due: Option<Date>): seq<string>
    requires due.Some? ==> IsDate(due.value)
  {
    (if ransomware then [RANSOMWARE] else []) + (if due.Some? then [DueSentence(Iso(due.value))] else [])
  }

  /** What the facts and their joining spaces take. */
  function Lengths(parts: seq<string>): nat {
    if parts == [] then 0 else |parts[0]| + 1 + Lengths(parts[1..])
  }

  predicate Closed(s: string) {
    s != "" && s[|s| - 1] in {'.', '!', '?', '\U{2026}'}
  }

  /** The description as it is printed: shortened to the room there is, and closed. */
  function Sentence(description: string, room: nat): string
    requires room >= 1
  {
    var text := if |description| > room then StripRight(description[..room - 1]) + "\U{2026}" else description;
    if Closed(text) then text else text + "."
  }

  lemma FactsLength(ransomware: bool, due: Option<Date>)
    requires due.Some? ==> IsDate(due.value)
    ensures Lengths(Facts(ransomware, due)) ==
      (if ransomware then |RANSOMWARE| + 1 else 0) + (if due.Some? then DUE_LENGTH + 1 else 0)
    ensures |RANSOMWARE| == 41
  {
    var facts := Facts(ransomware, due);
    if ransomware && due.Some? {
      var sentence := DueSentence(Iso(due.value));
      assert facts[1..] == [sentence] && [sentence][1..] == [];
      assert Lengths([sentence]) == |sentence| + 1 + Lengths([]);
    }
  }

  /** Characters left for the description beside the facts, before a full stop of its own. */
  function Room(ransomware: bool, due: Option<Date>): (room: nat)
    requires due.Some? ==> IsDate(due.value)
    ensures 1921 <= room < Ingest.MAX_SUMMARY_LENGTH
  {
    FactsLength(ransomware, due);
    Ingest.MAX_SUMMARY_LENGTH - Lengths(Facts(ransomware, due)) - 1
  }

  function Parts(description: Option<string>, ransomware: bool, due: Option<Date>): seq<string>
    requires due.Some? ==> IsDate(due.value)
  {
    var facts := Facts(ransomware, due);
    match Filled(description)
    case None => facts
    case Some(text) => [Sentence(Strip(text), Room(ransomware, due))] + facts
  }

  function Summary(raw: Raw): Option<string> {
    var parts := Parts(raw.description, UsedInRansomware(raw), DueDate(raw));
    if parts == [] then None else Some(Join(parts, ' '))
  }

  lemma SentenceLength(description: string, room: nat)
    requires room >= 1
    ensures |Sentence(description, room)| <= room + 1
    ensures description != "" ==> Sentence(description, room) != ""
  {
    if |description| > room {
      StripRightIsPrefix(description[..room - 1]);
    }
  }

  lemma {:induction false} JoinLength(parts: seq<string>, c: char)
    requires parts != []
    ensures |Join(parts, c)| == Lengths(parts) - 1
  {
    if |parts| > 1 {
      JoinLength(parts[1..], c);
    }
  }

  /** The summary fits, so the truncation that follows leaves it, and the facts at its end, alone. */
  lemma SummaryFits(raw: Raw)
    requires Summary(raw).Some?
    ensures |Summary(raw).value| <= Ingest.MAX_SUMMARY_LENGTH
    ensures Ingest.Truncate(Summary(raw).value, Ingest.MAX_SUMMARY_LENGTH) == Summary(raw).value
  {
    hide Facts, Sentence, Join, DueDate, UsedInRansomware;
    var ransomware, due := UsedInRansomware(raw), DueDate(raw);
    var facts, parts := Facts(ransomware, due), Parts(raw.description, ransomware, due);
    FactsLength(ransomware, due);
    JoinLength(parts, ' ');
    if Filled(raw.description).Some? {
      var description := Strip(raw.description.value);
      SentenceLength(description, Room(ransomware, due));
      assert parts[1..] == facts;
      assert Lengths(parts) == |parts[0]| + 1 + Lengths(facts);
    }
  }
}
