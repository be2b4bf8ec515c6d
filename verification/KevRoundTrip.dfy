/** What the catalogue prints into titles and summaries, the snapshot reads back. */
module KevRoundTrip {
  import opened Text
  import opened Kev
  import opened PlainText
  import opened PublicSnapshot
  import Ingest

  // --- titles -------------------------------------------------------------------------------

  lemma DigitsRunStops(digits: string, rest: string)
    requires DigitsRun(digits) == |digits|
    requires rest != "" ==> !Kev.IsDigit(rest[0])
    ensures DigitsRun(digits + rest) == |digits|
  {
    assert forall i :: 0 <= i < |digits| ==> (digits + rest)[i] == digits[i];
    assert rest != "" ==> (digits + rest)[|digits|] == rest[0];
  }

  lemma CvePrefixStops(cve: string, rest: string)
    requires IsCve(cve) && (rest != "" ==> !Kev.IsDigit(rest[0]))
    ensures CvePrefix(cve + rest) == Some(|cve|)
  {
    hide DigitsRun;
    DigitsRunStops(cve[9..], rest);
    assert (cve + rest)[9..] == cve[9..] + rest;
    assert (cve + rest)[..4] == cve[..4];
  }

  lemma CveIsNeat(cve: string)
    requires IsCve(cve)
    ensures Neat(cve) && Neat(cve + ":")
    ensures forall i :: 0 <= i < |cve| ==> !IsSpace((cve + ":")[i])
    ensures forall i :: 0 <= i < |cve + ":"| ==> !IsSpace((cve + ":")[i])
  {
    forall i | 0 <= i < |cve|
      ensures cve[i] in {'C', 'V', 'E', '-'} || Kev.IsDigit(cve[i])
    {
      if i < 4 {
        assert cve[i] == cve[..4][i];
      } else if i >= 9 {
        assert cve[i] == cve[9..][i - 9];
      }
    }
    assert forall i :: 0 <= i < |cve| ==> (cve + ":")[i] == cve[i];
  }

  /** Any front of an identifier that keeps the first thirteen characters is one too. */
  lemma CveFront(cve: string, n: nat)
    requires IsCve(cve) && 13 <= n <= |cve|
    ensures IsCve(cve[..n])
  {
    hide DigitsRun;
    var front := cve[..n];
    assert front[9..] == cve[9..][..n - 9] && front[..4] == cve[..4];
    DigitsFront(cve[9..], n - 9);
  }

  lemma DigitsFront(digits: string, n: nat)
    requires DigitsRun(digits) == |digits| && n <= |digits|
    ensures DigitsRun(digits[..n]) == n
  {
    assert forall i :: 0 <= i < n ==> digits[..n][i] == digits[i];
  }

  /** What may follow an identifier in a title that is read: nothing, or a colon, white space and a name. */
  lemma TitleTail(cve: string, tail: string)
    requires IsCve(cve) && (tail != "" ==> !Kev.IsDigit(tail[0]))
    ensures ReadTitle(cve + tail) ==
      if tail == "" then Some((cve, ""))
      else if tail[0] != ':' then None
      else
        var k := LeadingSpaces(tail[1..]);
        if k == 0 || k == |tail| - 1 then None else Some((cve, tail[1 + k..]))
  {
    hide CvePrefix, IsSpace, LeadingSpaces;
    CvePrefixStops(cve, tail);
    assert (cve + tail)[..|cve|] == cve && (cve + tail)[|cve|..] == tail;
    if tail == "" {
      assert cve + tail == cve;
    } else {
      assert (cve + tail)[|cve|] == tail[0] && (cve + tail)[|cve| + 1..] == tail[1..];
    }
  }

  lemma NamedTitle(cve: string, name: string)
    requires IsCve(cve) && name != "" && Stripped(name)
    ensures ReadTitle(cve + ": " + name) == Some((cve, name))
  {
    var tail := ": " + name;
    assert cve + ": " + name == cve + tail && tail[1..] == " " + name && tail[2..] == name;
    TitleTail(cve, tail);
    OneSpace(name);
  }

  lemma OneSpace(bare: string)
    requires Stripped(bare) && bare != ""
    ensures LeadingSpaces(" " + bare) == 1 && (" " + bare)[1..] == bare
  {
    assert (" " + bare)[1..] == bare;
  }

  /** The title of an entry after the stripper, the plain text of its name being `name`. */
  function PlainTitle(cve: string, name: Option<string>): string {
    match name
    case None => cve
    case Some(text) => if text == "" then cve + ":" else cve + ": " + text
  }

  lemma TitleFlattens(cve: string, bare: string)
    requires IsCve(cve)
    ensures Flattened(cve + ": " + bare) == PlainTitle(cve, Some(Flattened(bare)))
    ensures Flattened(cve) == cve
  {
    hide Flattened, IsSpace, CvePrefix;
    CveIsNeat(cve);
    FlattenedAfter(cve + ":", bare);
    FlattenedGlue("", cve);
    assert cve + ":" + " " + bare == cve + ": " + bare;
    assert cve + ":" + " " + Flattened(bare) == cve + ": " + Flattened(bare);
  }

  /** Whether a stored title still shows the identifier, and the name it shows. */
  predicate TitleHolds(cve: string, name: Option<string>) {
    match name
    case None => |cve| <= Ingest.MAX_TITLE_LENGTH
    case Some(text) =>
      && text != ""
      && (|cve| + 2 + |text| <= Ingest.MAX_TITLE_LENGTH || |cve| <= Ingest.MAX_TITLE_LENGTH - 4)
  }

  /** A title too long for its column, cut inside the identifier or just after it, is not read. */
  lemma CutTitle(cve: string, tail: string)
    requires IsCve(cve) && |cve + tail| > Ingest.MAX_TITLE_LENGTH
    requires tail == "" || tail == ":"
      || (|tail| >= 2 && tail[0] == ':' && tail[1] == ' ' && |cve| > Ingest.MAX_TITLE_LENGTH - 4)
    ensures ReadTitle(Ingest.Truncate(cve + tail, Ingest.MAX_TITLE_LENGTH)) == None
  {
    hide IsSpace, CvePrefix, ReadTitle;
    var t := cve + tail;
    var n := Ingest.MAX_TITLE_LENGTH - 1;
    SpaceAlone();
    CveIsNeat(cve);
    if |cve| >= n {
      assert t[..n] == cve[..n] && cve[..n][n - 1] == cve[n - 1];
      CveFront(cve, n);
      assert !IsSpace((cve + ":")[n - 1]);
      StripRightIs(cve[..n]);
      TitleTail(cve[..n], "\U{2026}");
    } else {
      var cut := if |cve| + 1 == n then cve + ":" else cve + ": ";
      assert t[..n] == cut;
      assert (cve + ":")[|cve|] == ':';
      StripRightIs(cve + ":");
      if |cve| + 2 == n {
        assert cut == cve + ":" + " " && StripRight(" ") == "";
        StripRightAfter(cve + ":", " ");
      }
      var end := ":\U{2026}";
      assert cve + ":" + "\U{2026}" == cve + end && end[1..] == "\U{2026}";
      TitleTail(cve, end);
      EllipsisIsNoSpace();
      LeadingSpacesIs("\U{2026}", 0);
    }
  }

  /** A title that is cut inside the name, or not at all, keeps the identifier. */
  lemma CutName(cve: string, name: string)
    requires IsCve(cve) && name != "" && Stripped(name) && TitleHolds(cve, Some(name))
    ensures ReadTitle(Ingest.Truncate(cve + ": " + name, Ingest.MAX_TITLE_LENGTH)) ==
      Some((cve, Ingest.Truncate(name, Ingest.MAX_TITLE_LENGTH - 2 - |cve|)))
  {
    hide IsSpace, CvePrefix, ReadTitle, StripRight;
    var limit := Ingest.MAX_TITLE_LENGTH;
    var t := cve + ": " + name;
    if |t| <= limit {
      NamedTitle(cve, name);
    } else {
      var kept := name[..limit - 3 - |cve|];
      assert t[..limit - 1] == cve + ": " + kept;
      StartShows(kept);
      StripRightAfter(cve + ": ", kept);
      StripRightIsPrefix(kept);
      var shown := StripRight(kept) + "\U{2026}";
      assert cve + ": " + StripRight(kept) + "\U{2026}" == cve + ": " + shown;
      assert shown[0] == name[0];
      EllipsisIsNoSpace();
      NamedTitle(cve, shown);
    }
  }

  lemma EllipsisIsNoSpace()
    ensures !IsSpace('\U{2026}')
  {
  }

  lemma StartShows(s: string)
    requires s != "" && !IsSpace(s[0])
    ensures StripRight(s) != ""
  {
    assert s == [s[0]] + s[1..];
    StripRightCons(s[0], s[1..]);
  }

  lemma ShortenedTitle(cve: string, plain: Option<string>)
    requires IsCve(cve) && (plain.Some? ==> Stripped(plain.value))
    ensures ReadTitle(Ingest.Truncate(PlainTitle(cve, plain), Ingest.MAX_TITLE_LENGTH)) ==
      if !TitleHolds(cve, plain) then None
      else if plain.None? then Some((cve, ""))
      else Some((cve, Ingest.Truncate(plain.value, Ingest.MAX_TITLE_LENGTH - 2 - |cve|)))
  {
    hide ReadTitle, CvePrefix, IsSpace, StripRight, LeadingSpaces;
    assert cve + "" == cve;
    if plain.None? {
      TitleTail(cve, "");
      if |cve| > Ingest.MAX_TITLE_LENGTH {
        CutTitle(cve, "");
      }
    } else if plain.value == "" {
      TitleTail(cve, ":");
      LeadingSpacesIs("", 0);
      assert ":"[1..] == "";
      if |cve + ":"| > Ingest.MAX_TITLE_LENGTH {
        CutTitle(cve, ":");
      }
    } else if TitleHolds(cve, plain) {
      CutName(cve, plain.value);
    } else {
      assert cve + ": " + plain.value == cve + (": " + plain.value);
      CutTitle(cve, ": " + plain.value);
    }
  }

  /**
   * A stored title gives its identifier back exactly when it holds one: a name that is not
   * stripped away whole, and a cut, if there is one, that falls inside the name.
   */
  lemma TitleReadsBack(markup: string -> string, cve: string, name: Option<string>, bare: string, url: string)
    requires IsCve(cve)
    requires markup(Title(cve, name)) == if Filled(name).Some? then cve + ": " + bare else cve
    ensures var plain := if Filled(name).Some? then Some(Flattened(bare)) else None;
      ReadTitle(Strip(Ingest.StoredTitle(markup, Some(Title(cve, name)), url))) ==
        if !TitleHolds(cve, plain) then None
        else if plain.None? then Some((cve, ""))
        else Some((cve, Ingest.Truncate(plain.value, Ingest.MAX_TITLE_LENGTH - 2 - |cve|)))
  {
    hide Flattened, ReadTitle, CvePrefix, IsSpace, Title, Ingest.Truncate, StripRight, LeadingSpaces;
    var plain := if Filled(name).Some? then Some(Flattened(bare)) else None;
    TitleFlattens(cve, bare);
    FlattenedShrinks(bare);
    FlattenedShrinks(markup(Title(cve, name)));
    TruncatedIsStripped(PlainTitle(cve, plain), Ingest.MAX_TITLE_LENGTH);
    StrippedIsFixed(Ingest.Truncate(PlainTitle(cve, plain), Ingest.MAX_TITLE_LENGTH));
    ShortenedTitle(cve, plain);
  }

  lemma TruncatedIsStripped(text: string, limit: nat)
    requires Stripped(text) && limit >= 2
    ensures Stripped(Ingest.Truncate(text, limit))
  {
    if |text| > limit {
      EllipsisIsNoSpace();
      StripRightIsPrefix(text[..limit - 1]);
      var front := StripRight(text[..limit - 1]);
      assert front != "" ==> (front + "\U{2026}")[0] == text[0];
    }
  }

  // --- facts --------------------------------------------------------------------------------

  lemma SpaceGoes(text: string)
    requires Stripped(text)
    ensures Strip(text + " ") == text && Strip("") == ""
  {
    hide IsSpace;
    SpaceAlone();
    if text == "" {
      StripFromRight(" ");
    } else {
      StripRightIs(text);
      StripFromRight(text + " ");
      StripRightAfter(text, " ");
      LeadingSpacesIs(text, 0);
    }
  }

  lemma DueReads(before: string, iso: string)
    requires Stripped(before) && FromIso(iso).Some?
    ensures var s := Glue(before, DueSentence(iso));
      EndsInDue(s) && BeforeDue(s) == before && s[|s| - 11..|s| - 1] == iso
  {
    hide FromIso, IsSpace;
    var s := Glue(before, DueSentence(iso));
    assert |iso| == 10 by { IsoIsText(iso); }
    var k := |s| - DUE_LENGTH;
    assert s[k..] == DueSentence(iso);
    assert s[k..k + |DUE|] == s[k..][..|DUE|] == DUE;
    assert s[|s| - 11..|s| - 1] == s[k..][24..34] == iso;
    assert s[|s| - 1] == s[k..][34] == '.';
    if before == "" {
    } else {
      assert s[k - 1] == ' ' && s[..k - 1] == before;
      assert IsSpace(' ') by { SpaceIsSpace(); }
      StrippedIsFixed(before);
    }
  }

  lemma SpaceIsSpace()
    ensures IsSpace(' ')
  {
  }

  lemma RansomwareReads(before: string, due: Option<string>)
    requires Stripped(before)
    ensures ReadRansomware(Glue(before, RANSOMWARE), due) == Reading(before, due, true)
    ensures !EndsInDue(Glue(before, RANSOMWARE))
    ensures Stripped(Glue(before, RANSOMWARE)) && Glue(before, RANSOMWARE) != ""
  {
    hide Strip;
    var s := Glue(before, RANSOMWARE);
    assert s[|s| - |RANSOMWARE|..] == RANSOMWARE;
    RansomwareEnds(s);
    if EndsInDue(s) {
      DueEnds(s);
    }
    SpaceGoes(before);
    if before != "" {
      assert s[..|s| - |RANSOMWARE|] == before + " ";
    } else {
      assert s[..|s| - |RANSOMWARE|] == "";
    }
  }

  /** The printed facts as pieces glued in order. */
  function Printed(sentence: string, ransomware: bool, due: Option<Date>): string
    requires due.Some? ==> IsDate(due.value)
  {
    var flagged := if ransomware then Glue(sentence, RANSOMWARE) else sentence;
    if due.Some? then Glue(flagged, DueSentence(Iso(due.value))) else flagged
  }

  /** What is read off any printed description with any facts after it. */
  lemma PrintedReads(sentence: string, ransomware: bool, due: Option<Date>)
    requires Stripped(sentence) && (due.Some? ==> IsDate(due.value))
    ensures var reading := ReadFacts(Printed(sentence, ransomware, due));
      var iso := if due.Some? then Some(Iso(due.value)) else None;
      if ransomware then reading == Reading(sentence, iso, true)
      else if due.Some? then reading == ReadRansomware(sentence, iso)
      else reading == ReadFacts(sentence)
  {
    hide EndsInDue, BeforeDue, EndsInRansomware, Glue, Iso, FromIso;
    if ransomware {
      RansomwareReads(sentence, None);
    }
    var flagged := if ransomware then Glue(sentence, RANSOMWARE) else sentence;
    if due.Some? {
      IsoReadsBack(due.value);
      DueReads(flagged, Iso(due.value));
      if ransomware {
        RansomwareReads(sentence, Some(Iso(due.value)));
      }
    }
  }

  lemma RansomwareText()
    ensures |RANSOMWARE| == 41 && RANSOMWARE[40] == '.' && RANSOMWARE[39] == 's' && RANSOMWARE[0] == 'K'
  {
  }

  lemma RansomwareEnds(s: string)
    requires EndsInRansomware(s)
    ensures |s| >= 2 && s[|s| - 1] == '.' && s[|s| - 2] == 's'
  {
    hide RANSOMWARE;
    RansomwareText();
    var tail := s[|s| - 41..];
    assert tail == RANSOMWARE && tail[40] == s[|s| - 1] && tail[39] == s[|s| - 2];
  }

  lemma DueEnds(s: string)
    requires EndsInDue(s)
    ensures |s| >= 2 && s[|s| - 1] == '.' && Kev.IsDigit(s[|s| - 2])
  {
    assert s[|s| - 11..|s| - 1][9] == s[|s| - 2];
  }

  // --- the sentences in plain text ------------------------------------------------------------

  lemma RansomwareIsNeat()
    ensures Neat(RANSOMWARE)
  {
    hide Neat;
    WordIsNeat("Known");
    WordIsNeat("to");
    WordIsNeat("be");
    WordIsNeat("used");
    WordIsNeat("in");
    WordIsNeat("ransomware");
    WordIsNeat("campaigns.");
    NeatGlue("Known", "to");
    assert "Known" + " " + "to" == "Known to";
    NeatGlue("Known to", "be");
    assert "Known to" + " " + "be" == "Known to be";
    NeatGlue("Known to be", "used");
    assert "Known to be" + " " + "used" == "Known to be used";
    NeatGlue("Known to be used", "in");
    assert "Known to be used" + " " + "in" == "Known to be used in";
    NeatGlue("in", "ransomware");
    assert "in" + " " + "ransomware" == "in ransomware";
    NeatGlue("Known to be used in", "ransomware");
    assert "Known to be used in" + " " + "ransomware" == "Known to be used in ransomware";
    NeatGlue("Known to be used in ransomware", "campaigns.");
    assert "Known to be used in ransomware" + " " + "campaigns." == RANSOMWARE;
  }

  lemma IsoIsNeat(iso: string)
    requires LooksIso(iso)
    ensures Neat(iso + ".")
  {
    forall i | 0 <= i < |iso + "."|
      ensures (iso + ".")[i] in {'-', '.'} || Kev.IsDigit((iso + ".")[i])
    {
    }
  }

  lemma DueIsNeat(iso: string)
    requires FromIso(iso).Some?
    ensures Neat(DueSentence(iso))
  {
    hide Neat;
    WordIsNeat("Federal");
    WordIsNeat("remediation");
    WordIsNeat("due");
    NeatGlue("Federal", "remediation");
    assert "Federal" + " " + "remediation" == "Federal remediation";
    NeatGlue("Federal remediation", "due");
    assert "Federal remediation" + " " + "due" == "Federal remediation due";
    IsoIsNeat(iso);
    NeatGlue("Federal remediation due", iso + ".");
    assert "Federal remediation due" + " " + (iso + ".") == DueSentence(iso);
  }

  /** Plain text leaves the facts at the end of a summary as they are. */
  lemma PrintedFlattens(text: string, ransomware: bool, due: Option<Date>)
    requires due.Some? ==> IsDate(due.value)
    ensures Flattened(Printed(text, ransomware, due)) == Printed(Flattened(text), ransomware, due)
  {
    hide Flattened, Neat, DueSentence, Iso, RANSOMWARE;
    RansomwareIsNeat();
    FlattenedGlue(text, RANSOMWARE);
    NothingFlattens();
    if due.Some? {
      IsoReadsBack(due.value);
      DueIsNeat(Iso(due.value));
      var flagged := if ransomware then Glue(text, RANSOMWARE) else text;
      FlattenedGlue(flagged, DueSentence(Iso(due.value)));
    }
  }

  lemma NothingFlattens()
    ensures Flattened("") == ""
  {
    SpaceAlone();
  }

  // --- what a description may be taken for ----------------------------------------------------

  /** The description as it is printed, empty when there is none. */
  function Described(raw: Raw): string {
    match Filled(raw.description)
    case None => ""
    case Some(text) => Sentence(Strip(text), Room(UsedInRansomware(raw), DueDate(raw)))
  }

  lemma SummaryIsPrinted(raw: Raw)
    ensures Filled(raw.description).Some? ==> Described(raw) != ""
    ensures Printed(Described(raw), UsedInRansomware(raw), DueDate(raw)) == SummaryText(raw)
  {
    hide UsedInRansomware, DueDate, Room, Iso, DueSentence, Closed, StripRight;
    var parts := Parts(raw.description, UsedInRansomware(raw), DueDate(raw));
    if Filled(raw.description).Some? {
      SentenceIsClosed(Strip(raw.description.value), Room(UsedInRansomware(raw), DueDate(raw)));
    }
    if |parts| == 3 {
      JoinGlues(parts[0], parts[1], parts[2]);
      assert parts == [parts[0], parts[1], parts[2]];
    } else if |parts| == 2 {
      JoinGlues(parts[0], parts[1], "");
      assert parts == [parts[0], parts[1]];
    } else if |parts| == 1 {
      JoinGlues(parts[0], "", "");
      assert parts == [parts[0]];
    }
  }

  lemma SentenceIsClosed(text: string, room: nat)
    requires room >= 1
    ensures Sentence(text, room) != "" && Closed(Sentence(text, room))
  {
  }

  lemma JoinGlues(a: string, b: string, c: string)
    ensures Join([a], ' ') == a && Join([a, b], ' ') == a + " " + b && Join([a, b, c], ' ') == a + " " + b + " " + c
  {
    assert [a, b][1..] == [b] && [a, b, c][1..] == [b, c] && [b, c][1..] == [c];
    assert Join([c], ' ') == c && Join([b, c], ' ') == b + " " + c;
    assert a + " " + (b + " " + c) == a + " " + b + " " + c;
  }

  function SummaryText(raw: Raw): string { match Summary(raw) case Some(s) => s case None => "" }

  function DueText(raw: Raw): Option<string> {
    if DueDate(raw).Some? then Some(Iso(DueDate(raw).value)) else None
  }

  /** Where the plain text of the printed description is taken for a fact the entry does not have. */
  predicate Misleads(plain: string, ransomware: bool, due: bool) {
    !ransomware && (EndsInRansomware(plain) || (!due && EndsInDue(plain)))
  }

  /** The stripper made `bare` of the printed description, no longer than it was, and left the facts. */
  ghost predicate StrippedTo(markup: string -> string, raw: Raw, bare: string) {
    && |bare| <= |Described(raw)|
    && if SummaryText(raw) == "" then bare == ""
       else markup(SummaryText(raw)) == Printed(bare, UsedInRansomware(raw), DueDate(raw))
  }

  /** What is stored of a summary is its plain text, facts and all: nothing of it is cut off. */
  lemma StoredIsPlain(markup: string -> string, raw: Raw, bare: string)
    requires StrippedTo(markup, raw, bare)
    ensures Printed(Flattened(bare), UsedInRansomware(raw), DueDate(raw)) ==
      match Ingest.StoredSummary(markup, Summary(raw)) case Some(s) => s case None => ""
    ensures Stripped(Flattened(bare)) && Stripped(Printed(Flattened(bare), UsedInRansomware(raw), DueDate(raw)))
  {
    hide Flattened, UsedInRansomware, DueDate, Iso, DueSentence, Stripped, Sentence, RANSOMWARE;
    var ransomware, due := UsedInRansomware(raw), DueDate(raw);
    NothingFlattens();
    FlattenedShrinks(bare);
    PrintedFlattens(bare, ransomware, due);
    FlattenedShrinks(Printed(bare, ransomware, due));
    SummaryIsPrinted(raw);
    if Summary(raw).Some? {
      SummaryFits(raw);
      PrintedLength(bare, Described(raw), ransomware, due);
      PrintedIsSomething(raw);
    }
  }

  lemma PrintedIsSomething(raw: Raw)
    requires Summary(raw).Some?
    ensures Summary(raw).value != ""
  {
    hide UsedInRansomware, DueDate, Room, Iso, Sentence;
    SummaryIsPrinted(raw);
  }

  lemma PrintedLength(a: string, b: string, ransomware: bool, due: Option<Date>)
    requires |a| <= |b| && (due.Some? ==> IsDate(due.value))
    ensures |Printed(a, ransomware, due)| <= |Printed(b, ransomware, due)|
  {
    hide Iso, RANSOMWARE;
  }

  /**
   * Any deadline and any ransomware flag come back from the stored summary. Text, deadline and
   * flag are the entry's if and only if the description, in plain text, does not mislead.
   */
  lemma FactsReadBack(markup: string -> string, raw: Raw, bare: string)
    requires StrippedTo(markup, raw, bare)
    ensures var reading :=
        ReadFacts(Strip(match Ingest.StoredSummary(markup, Summary(raw)) case Some(s) => s case None => ""));
      var misled := Misleads(Flattened(bare), UsedInRansomware(raw), DueDate(raw).Some?);
      && (DueDate(raw).Some? ==> reading.due == DueText(raw))
      && (UsedInRansomware(raw) ==> reading.ransomware)
      && (reading == Reading(Flattened(bare), DueText(raw), UsedInRansomware(raw)) <==> !misled)
      && (reading.due == DueText(raw) && reading.ransomware == UsedInRansomware(raw) <==> !misled)
  {
    hide Flattened, UsedInRansomware, DueDate, Iso, Printed, EndsInDue, EndsInRansomware, BeforeDue;
    hide Ingest.StoredSummary, Strip;
    StoredIsPlain(markup, raw, bare);
    StrippedIsFixed(Printed(Flattened(bare), UsedInRansomware(raw), DueDate(raw)));
    PrintedReads(Flattened(bare), UsedInRansomware(raw), DueDate(raw));
  }

  /** The name of an entry, empty when it has none. */
  function NameOf(raw: Raw): Option<string> {
    match Filled(raw.name) case Some(text) => Some(Strip(text)) case None => None
  }

  /** An entry printed, stored under a URL, and read back for publication. */
  function Published(markup: string -> string, raw: Raw, url: string): Option<KevFields> {
    match Entry(raw)
    case None => None
    case Some((title, summary)) =>
      ParseKevItem(Ingest.StoredTitle(markup, Some(title), url), Ingest.StoredSummary(markup, summary))
  }

  /** The stripper made `name` of the name, if there is one, and left the identifier. */
  ghost predicate TitleStrippedTo(markup: string -> string, raw: Raw, name: string)
    requires raw.cveId.Some?
  {
    markup(Title(Strip(raw.cveId.value), raw.name)) ==
      if Filled(raw.name).Some? then Strip(raw.cveId.value) + ": " + name else Strip(raw.cveId.value)
  }

  /** The name as it is published: plain, shortened with its title, cleaned. */
  function PublishedName(cve: string, plain: Option<string>): string
    requires TitleHolds(cve, plain)
  {
    CleanText(if plain.None? then "" else Ingest.Truncate(plain.value, Ingest.MAX_TITLE_LENGTH - 2 - |cve|),
              MAX_KEV_NAME_CHARS)
  }

  /**
   * An entry printed, stored and read back: it is read exactly when the stored title holds its
   * identifier, and then deadline and flag are the entry's if and only if its description, in
   * plain text, does not mislead.
   */
  lemma EntryReadsBack(markup: string -> string, raw: Raw, name: string, bare: string, url: string)
    requires raw.cveId.Some? && Entry(raw).Some?
    requires TitleStrippedTo(markup, raw, name) && StrippedTo(markup, raw, bare)
    ensures var plain := if Filled(raw.name).Some? then Some(Flattened(name)) else None;
      var cve, fields := Strip(raw.cveId.value), Published(markup, raw, url);
      var misled := Misleads(Flattened(bare), UsedInRansomware(raw), DueDate(raw).Some?);
      && (fields.Some? <==> TitleHolds(cve, plain))
      && (fields.Some? ==>
            && fields.value.cve == cve && fields.value.name == PublishedName(cve, plain)
            && (DueDate(raw).Some? ==> fields.value.due == DueText(raw))
            && (UsedInRansomware(raw) ==> fields.value.ransomware)
            && (fields.value.due == DueText(raw) && fields.value.ransomware == UsedInRansomware(raw) <==> !misled)
            && (!misled ==> fields.value.description == CleanText(Flattened(bare), MAX_KEV_DESCRIPTION_CHARS)))
  {
    hide ReadFacts, ReadTitle, CleanText, Misleads, UsedInRansomware, DueDate, Summary, DueText, Flattened;
    hide Ingest.StoredTitle, Ingest.StoredSummary, Ingest.Truncate, StrippedTo, Title, Strip;
    TitleReadsBack(markup, Strip(raw.cveId.value), raw.name, name, url);
    FactsReadBack(markup, raw, bare);
  }

  // --- descriptions the stripper leaves alone -------------------------------------------------

  function Closing(text: string): string { if Closed(text) then text else text + "." }

  /**
   * The description is whole, and its plain text, closed, ends in the sentence of a fact the
   * entry does not have. A deadline after it hides what it says of one, and a real ransomware
   * fact hides both.
   */
  predicate Mimics(raw: Raw) {
    var description := Filled(raw.description);
    && description.Some?
    && |Strip(description.value)| <= Room(UsedInRansomware(raw), DueDate(raw))
    && Misleads(Flattened(Closing(Strip(description.value))), UsedInRansomware(raw), DueDate(raw).Some?)
  }

  /** A description that is shortened ends in an ellipsis, in plain text too. */
  lemma MisleadsIff(raw: Raw)
    ensures Misleads(Flattened(Described(raw)), UsedInRansomware(raw), DueDate(raw).Some?) <==> Mimics(raw)
  {
    hide Flattened, UsedInRansomware, DueDate, Room, EndsInDue, EndsInRansomware, Strip, StripRight;
    var plain := Flattened(Described(raw));
    NothingFlattens();
    if EndsInRansomware(plain) {
      RansomwareEnds(plain);
    }
    if EndsInDue(plain) {
      DueEnds(plain);
    }
    if Filled(raw.description).Some? {
      var text, room := Strip(raw.description.value), Room(UsedInRansomware(raw), DueDate(raw));
      if |text| > room {
        EllipsisIsNoSpace();
        FlattenedLast(StripRight(text[..room - 1]), '\U{2026}');
        ShortenedEnds(text, room);
      }
    }
  }

  lemma ShortenedEnds(text: string, room: nat)
    requires room >= 1 && |text| > room
    ensures Sentence(text, room) == StripRight(text[..room - 1]) + "\U{2026}"
  {
    hide StripRight;
    var cut := StripRight(text[..room - 1]) + "\U{2026}";
    assert cut[|cut| - 1] == '\U{2026}';
  }

  /** Where the stripper finds nothing to strip, the condition is one on the entry itself. */
  lemma PlainEntryReadsBack(markup: string -> string, raw: Raw, url: string)
    requires raw.cveId.Some? && Entry(raw).Some?
    requires markup(Entry(raw).value.0) == Entry(raw).value.0
    requires SummaryText(raw) != "" ==> markup(SummaryText(raw)) == SummaryText(raw)
    ensures var plain := match NameOf(raw) case Some(text) => Some(Flattened(text)) case None => None;
      var fields := Published(markup, raw, url);
      && (fields.Some? <==> TitleHolds(Strip(raw.cveId.value), plain))
      && (fields.Some? ==>
            && (fields.value.due == DueText(raw) && fields.value.ransomware == UsedInRansomware(raw) <==> !Mimics(raw))
            && (!Mimics(raw) ==>
                  fields.value.description == CleanText(Flattened(Described(raw)), MAX_KEV_DESCRIPTION_CHARS)))
  {
    hide CleanText, Misleads, UsedInRansomware, DueDate, Summary, DueText, IsCve, Flattened, Published;
    hide PublishedName, TitleHolds, Strip, Described, Mimics, Printed;
    SummaryIsPrinted(raw);
    NothingDescribed(raw);
    var name := match NameOf(raw) case Some(text) => text case None => "";
    EntryReadsBack(markup, raw, name, Described(raw), url);
    MisleadsIff(raw);
  }

  lemma NothingDescribed(raw: Raw)
    ensures SummaryText(raw) == "" ==> Described(raw) == ""
  {
    hide UsedInRansomware, DueDate, Sentence, Room, Iso, RANSOMWARE;
    SummaryIsPrinted(raw);
  }

  // --- in the entry's own words ---------------------------------------------------------------

  /** `CVE-`, four digits, a dash, and four digits or more. */
  predicate HasCveShape(s: string) {
    && |s| >= 13 && s[..4] == "CVE-" && s[8] == '-'
    && forall i :: 4 <= i < |s| && i != 8 ==> '0' <= s[i] <= '9'
  }

  lemma {:induction false} DigitsRunIs(s: string)
    ensures DigitsRun(s) == |s| <==> forall i :: 0 <= i < |s| ==> '0' <= s[i] <= '9'
  {
  }

  lemma IsCveIff(s: string)
    ensures IsCve(s) <==> HasCveShape(s)
  {
    if |s| >= 13 {
      DigitsRunIs(s[9..]);
      assert forall i :: 9 <= i < |s| ==> s[i] == s[9..][i - 9];
    }
  }

  /** An entry is printed exactly when it has an identifier, white space around it aside. */
  lemma EntryIff(raw: Raw)
    ensures Entry(raw).Some? <==> raw.cveId.Some? && HasCveShape(Strip(raw.cveId.value))
  {
    hide IsCve, Strip, Title, Summary;
    if raw.cveId.Some? {
      IsCveIff(Strip(raw.cveId.value));
    }
  }

  /** The deadline is the text of its member, if that is a date; the flag is the member `known`, in any case. */
  lemma FactsAsWritten(raw: Raw)
    ensures UsedInRansomware(raw) <==>
      raw.ransomwareUse.Some? && Lower(Strip(raw.ransomwareUse.value)) == "known"
    ensures DueText(raw) ==
      if raw.dueDate.Some? && FromIso(Strip(raw.dueDate.value)).Some? then Some(Strip(raw.dueDate.value)) else None
  {
    hide FromIso, Strip, Iso;
    if raw.dueDate.Some? && FromIso(Strip(raw.dueDate.value)).Some? {
      DateIsSomething(Strip(raw.dueDate.value));
      IsoIsText(Strip(raw.dueDate.value));
    }
    KnownIsSomething();
  }

  lemma DateIsSomething(s: string)
    ensures FromIso(s).Some? ==> s != ""
  {
  }

  lemma KnownIsSomething()
    ensures Lower("") != "known"
  {
  }

  /** A full stop is added to what ends in no mark of its own. */
  function WithStop(text: string): string {
    if text == "" || text[|text| - 1] == '.' || text[|text| - 1] == '!' || text[|text| - 1] == '?'
       || text[|text| - 1] == '\U{2026}'
    then text else text + "."
  }

  /** There is a description, and it fits in 2000 characters with the facts after it and a stop of its own. */
  predicate FitsWhole(description: Option<string>, ransomware: bool, due: bool) {
    && description.Some? && Strip(description.value) != ""
    && |Strip(description.value)| <= 1999 - (if ransomware then 42 else 0) - (if due then 36 else 0)
  }

  /** There is a name, and in plain text it fits in 1024 characters with its identifier. */
  predicate ShortName(cve: string, name: Option<string>) {
    name.Some? && Strip(name.value) != "" && |cve| + 2 + |Flattened(Strip(name.value))| <= 1024
  }

  /**
   * An entry the stripper leaves alone, whose title holds and whose description does not
   * mislead, is published in its own words: identifier, deadline and flag as its members give
   * them, and a description that fits, closed and cleaned.
   */
  lemma PublishedAsWritten(markup: string -> string, raw: Raw, url: string)
    requires raw.cveId.Some? && HasCveShape(Strip(raw.cveId.value))
    requires markup(Title(Strip(raw.cveId.value), raw.name)) == Title(Strip(raw.cveId.value), raw.name)
    requires SummaryText(raw) != "" ==> markup(SummaryText(raw)) == SummaryText(raw)
    requires TitleHolds(
      Strip(raw.cveId.value), match NameOf(raw) case Some(text) => Some(Flattened(text)) case None => None)
    requires !Mimics(raw)
    ensures Published(markup, raw, url).Some?
    ensures var fields := Published(markup, raw, url).value;
      && fields.cve == Strip(raw.cveId.value)
      && (fields.ransomware <==>
            raw.ransomwareUse.Some? && Lower(Strip(raw.ransomwareUse.value)) == "known")
      && fields.due == (if raw.dueDate.Some? && FromIso(Strip(raw.dueDate.value)).Some?
                        then Some(Strip(raw.dueDate.value)) else None)
      && (FitsWhole(raw.description, fields.ransomware, fields.due.Some?) ==>
            fields.description == CleanText(Flattened(WithStop(Strip(raw.description.value))), 800))
      && (ShortName(Strip(raw.cveId.value), raw.name) ==>
            fields.name == CleanText(Flattened(Strip(raw.name.value)), 200))
  {
    hide CleanText, Misleads, UsedInRansomware, DueDate, Summary, DueText, IsCve, Flattened, Published, FromIso;
    hide PublishedName, TitleHolds, Strip, Described, Mimics, Printed, Lower, Title, ParseKevItem;
    IsCveIff(Strip(raw.cveId.value));
    EntryIff(raw);
    TitleOfEntry(raw);
    PlainEntryReadsBack(markup, raw, url);
    PublishedTitle(markup, raw, url);
    FactsAsWritten(raw);
    DueTextIff(raw);
    if FitsWhole(raw.description, UsedInRansomware(raw), DueDate(raw).Some?) {
      DescribedShort(raw);
    }
  }

  lemma DueTextIff(raw: Raw)
    ensures DueText(raw).Some? <==> DueDate(raw).Some?
  {
  }

  lemma TitleOfEntry(raw: Raw)
    requires Entry(raw).Some? && raw.cveId.Some?
    ensures Entry(raw).value.0 == Title(Strip(raw.cveId.value), raw.name)
  {
  }

  lemma PublishedTitle(markup: string -> string, raw: Raw, url: string)
    requires raw.cveId.Some? && Entry(raw).Some?
    requires markup(Entry(raw).value.0) == Entry(raw).value.0
    requires SummaryText(raw) != "" ==> markup(SummaryText(raw)) == SummaryText(raw)
    ensures Published(markup, raw, url).Some? ==>
      && Published(markup, raw, url).value.cve == Strip(raw.cveId.value)
      && (ShortName(Strip(raw.cveId.value), raw.name) ==>
            Published(markup, raw, url).value.name == CleanText(Flattened(Strip(raw.name.value)), 200))
  {
    hide CleanText, Misleads, UsedInRansomware, DueDate, Summary, DueText, IsCve, Flattened, Published;
    hide TitleHolds, Strip, Described, Mimics, Printed;
    SummaryIsPrinted(raw);
    NothingDescribed(raw);
    var name := match NameOf(raw) case Some(text) => text case None => "";
    EntryReadsBack(markup, raw, name, Described(raw), url);
  }

  lemma DescribedShort(raw: Raw)
    requires FitsWhole(raw.description, UsedInRansomware(raw), DueDate(raw).Some?)
    ensures Described(raw) == WithStop(Strip(raw.description.value))
  {
    hide UsedInRansomware, DueDate, Strip, Lengths, Facts;
    FactsLength(UsedInRansomware(raw), DueDate(raw));
  }

  /** A member that is blank is as good as absent. */
  lemma BlankIsAbsent(raw: Raw, blank: string)
    requires Strip(blank) == ""
    ensures Entry(raw.(cveId := Some(blank))) == None
    ensures Entry(raw.(name := Some(blank))) == Entry(raw.(name := None))
    ensures Entry(raw.(description := Some(blank))) == Entry(raw.(description := None))
    ensures Entry(raw.(ransomwareUse := Some(blank))) == Entry(raw.(ransomwareUse := None))
    ensures Entry(raw.(dueDate := Some(blank))) == Entry(raw.(dueDate := None))
  {
    hide Strip, IsCve, FromIso, Lower, Join, Sentence, Room;
  }

  // --- a description that misleads ------------------------------------------------------------

  /** The ransomware sentence short of its full stop, after a tab, on an entry not known for ransomware. */
  const QUOTING := Raw(Some("CVE-2024-0001"), None, Some("x\t" + RANSOMWARE[..40]), None, None)

  lemma QuotingIsEntry()
    ensures IsCve("CVE-2024-0001") && Strip("CVE-2024-0001") == "CVE-2024-0001"
  {
    var cve := "CVE-2024-0001";
    assert cve[..4] == "CVE-";
    StrippedIsFixed(cve);
    assert DigitsRun(cve[9..]) == 4 by {
      assert forall i :: 0 <= i < 4 ==> Kev.IsDigit(cve[9..][i]);
    }
  }

  lemma QuotingIsClosed()
    ensures var text := "x\t" + RANSOMWARE[..40];
      text != "" && Strip(text) == text && |text| == 42 && Closing(text) == "x\t" + RANSOMWARE
  {
    hide RANSOMWARE;
    RansomwareText();
    var text := "x\t" + RANSOMWARE[..40];
    assert text[0] == 'x' && text[41] == RANSOMWARE[39];
    LettersStay(text);
    assert text + "." == "x\t" + RANSOMWARE;
  }

  lemma LettersStay(text: string)
    requires text != "" && text[0] == 'x' && text[|text| - 1] == 's'
    ensures Strip(text) == text
  {
    StrippedIsFixed(text);
  }

  /** The tab is one space in plain text. */
  lemma TabFlattens(more: string)
    requires Neat(more)
    ensures Flattened("x\t" + more) == "x " + more
  {
    hide Untagged, Uncontrolled, Squeezed, Strip, Neat, LeadingSpaces;
    NeatIsFixed(more);
    NeatHas(more);
    NeatEnds(more);
    UntaggedPrepend("x\t", more);
    UncontrolledConcat("x\t", more);
    UncontrolledNone("x\t");
    assert "x\t" + more == "x" + ("\t" + more) && ("\t" + more)[1..] == more;
    SqueezedWord("x", "\t" + more);
    SqueezedStep("\t" + more);
    LeadingSpacesIs("\t" + more, 1);
    assert "x" + (" " + more) == "x " + more;
    StripEnds("x " + more);
  }

  lemma StripEnds(text: string)
    requires text != "" && Stripped(text)
    ensures Strip(text) == text
  {
    StrippedIsFixed(text);
  }

  lemma QuotingIsDescribed()
    ensures !UsedInRansomware(QUOTING) && DueDate(QUOTING).None? && Filled(QUOTING.name).None?
    ensures Described(QUOTING) == "x\t" + RANSOMWARE && Flattened(Described(QUOTING)) == "x " + RANSOMWARE
    ensures Mimics(QUOTING)
  {
    hide RANSOMWARE, Flattened, Strip, StripRight, FromIso, Lower, EndsInRansomware, EndsInDue, Room, Closed;
    QuotingIsClosed();
    RansomwareIsNeat();
    TabFlattens(RANSOMWARE);
    QuotedEnds();
  }

  lemma QuotedEnds()
    ensures EndsInRansomware("x " + RANSOMWARE) && Stripped("x") && Glue("x", RANSOMWARE) == "x " + RANSOMWARE
  {
    hide RANSOMWARE;
    RansomwareText();
    assert "x " + RANSOMWARE == "x" + " " + RANSOMWARE;
    assert ("x " + RANSOMWARE)[2..] == RANSOMWARE;
  }

  /** It is closed by the printer, flattened when it is stored, and published as a ransomware entry. */
  lemma QuotingIsMisread(markup: string -> string, url: string)
    requires markup("CVE-2024-0001") == "CVE-2024-0001" && markup(SummaryText(QUOTING)) == SummaryText(QUOTING)
    ensures !UsedInRansomware(QUOTING) && Mimics(QUOTING)
    ensures Published(markup, QUOTING, url).Some? && Published(markup, QUOTING, url).value.ransomware
  {
    hide RANSOMWARE, Flattened, ReadTitle, IsCve, Room, Strip, CleanText, Mimics, ReadFacts, UsedInRansomware, DueDate;
    hide Ingest.StoredTitle, Ingest.StoredSummary, Sentence, Described, Summary;
    QuotingIsEntry();
    QuotingIsDescribed();
    SummaryIsPrinted(QUOTING);
    TitleReadsBack(markup, "CVE-2024-0001", None, "", url);
    StoredIsPlain(markup, QUOTING, Described(QUOTING));
    QuotedEnds();
    RansomwareReads("x", None);
    QuotedStays();
    assert ReadFacts("x " + RANSOMWARE).ransomware by { QuotedReads(); }
  }

  lemma QuotedStays()
    ensures Strip("x " + RANSOMWARE) == "x " + RANSOMWARE
  {
    QuotedEnds();
    RansomwareReads("x", None);
    StrippedIsFixed("x " + RANSOMWARE);
  }

  lemma QuotedReads()
    ensures ReadFacts("x " + RANSOMWARE).ransomware
  {
    hide RANSOMWARE, ReadRansomware, EndsInDue;
    QuotedEnds();
    RansomwareReads("x", None);
  }
}
