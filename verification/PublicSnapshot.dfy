/** Reading printed catalogue entries back, and cleaning text for publication. */
module PublicSnapshot {
  import opened Text
  import opened Kev
  import Ingest

  const MAX_KEV_NAME_CHARS: nat := 200
  const MAX_KEV_DESCRIPTION_CHARS: nat := 800

  // --- cleaning text ------------------------------------------------------------------------

  /** Control and format characters (categories Cc and Cf), and the replacement character. */
  predicate Hidden(c: char) {
    || c <= '\U{1F}' || '\U{7F}' <= c <= '\U{9F}' || c == '\U{FFFD}'
    || c == '\U{AD}' || '\U{600}' <= c <= '\U{605}' || c == '\U{61C}' || c == '\U{6DD}' || c == '\U{70F}'
    || '\U{890}' <= c <= '\U{891}' || c == '\U{8E2}' || c == '\U{180E}' || '\U{200B}' <= c <= '\U{200F}'
    || '\U{202A}' <= c <= '\U{202E}' || '\U{2060}' <= c <= '\U{2064}' || '\U{2066}' <= c <= '\U{206F}'
    || c == '\U{FEFF}' || '\U{FFF9}' <= c <= '\U{FFFB}' || c == '\U{110BD}' || c == '\U{110CD}'
    || '\U{13430}' <= c <= '\U{1343F}' || '\U{1BCA0}' <= c <= '\U{1BCA3}' || '\U{1D173}' <= c <= '\U{1D17A}'
    || c == '\U{E0001}' || '\U{E0020}' <= c <= '\U{E007F}'
  }

  predicate Shown(c: char) { !IsSpace(c) && !Hidden(c) }

  /** The text without its hidden characters. */
  function Bare(text: string): string {
    if text == "" then "" else (if Hidden(text[0]) then "" else [text[0]]) + Bare(text[1..])
  }

  function FirstSpace(text: string): (n: nat)
    ensures n <= |text|
    ensures n < |text| ==> IsSpace(text[n])
    ensures forall i :: 0 <= i < n ==> !IsSpace(text[i])
  {
    if text == "" || IsSpace(text[0]) then 0 else 1 + FirstSpace(text[1..])
  }

  /** What stands between white space, hidden characters dropped; what is then empty is no word. */
  function Words(text: string): seq<string>
    decreases |text|
  {
    var n := FirstSpace(text);
    var word := if Bare(text[..n]) == "" then [] else [Bare(text[..n])];
    word + if n == |text| then [] else Words(text[n + 1..])
  }

  function Collapsed(text: string): string { Join(Words(text), ' ') }

  /** Characters that show follow the last white space. */
  predicate Open(text: string)
    decreases |text|
  {
    var n := FirstSpace(text);
    if n == |text| then Bare(text) != "" else Open(text[n + 1..])
  }

  function CleanText(text: string, limit: nat): string
    requires limit >= 1
  {
    var cleaned := Collapsed(text);
    if |cleaned| <= limit then cleaned else StripRight(cleaned[..limit - 1]) + "\U{2026}"
  }

  lemma {:induction false} BareSnoc(text: string, c: char)
    ensures Bare(text + [c]) == Bare(text) + if Hidden(c) then "" else [c]
  {
    hide Bare, Hidden;
    BareCons(c, "");
    if text == "" {
      assert text + [c] == [c] + "";
    } else {
      BareSnoc(text[1..], c);
      BareCons(text[0], text[1..]);
      BareCons(text[0], text[1..] + [c]);
      assert text == [text[0]] + text[1..] && text + [c] == [text[0]] + (text[1..] + [c]);
    }
  }

  lemma BareCons(c: char, text: string)
    ensures Bare([c] + text) == (if Hidden(c) then "" else [c]) + Bare(text)
    ensures Bare("") == ""
  {
    hide Hidden;
    assert ([c] + text)[1..] == text;
  }

  lemma FirstSpaceIs(text: string, n: nat)
    requires n <= |text| && (n < |text| ==> IsSpace(text[n])) && forall i :: 0 <= i < n ==> !IsSpace(text[i])
    ensures FirstSpace(text) == n
  {
  }

  function Word(piece: string): seq<string> { if Bare(piece) == "" then [] else [Bare(piece)] }

  lemma WordsAre(text: string, n: nat)
    requires n <= |text| && (n < |text| ==> IsSpace(text[n])) && forall i :: 0 <= i < n ==> !IsSpace(text[i])
    ensures n == |text| ==> Words(text) == Word(text) && (Open(text) <==> Bare(text) != "")
    ensures n < |text| ==>
      Words(text) == Word(text[..n]) + Words(text[n + 1..]) && (Open(text) <==> Open(text[n + 1..]))
  {
    hide IsSpace, Bare, FirstSpace;
    FirstSpaceIs(text, n);
    assert text[..|text|] == text;
    assert Word(text[..n]) + [] == Word(text[..n]);
  }

  /** The words when a character is added: a new word, a longer last word, or no change. */
  function Extended(words: seq<string>, open: bool, c: char): seq<string>
    requires open ==> words != []
  {
    if !Shown(c) then words
    else if open then words[..|words| - 1] + [words[|words| - 1] + [c]]
    else words + [[c]]
  }

  lemma {:induction false} WordsSnoc(text: string, c: char)
    ensures Open(text) ==> Words(text) != []
    ensures Words(text + [c]) == Extended(Words(text), Open(text), c)
    ensures Open(text + [c]) <==> if IsSpace(c) then false else Open(text) || Shown(c)
    decreases |text|
  {
    hide Hidden, IsSpace, Words, Open, FirstSpace, Bare;
    var n := FirstSpace(text);
    WordsAre(text, n);
    if n == |text| {
      WordsSnocPlain(text, c);
    } else {
      var rest := text[n + 1..];
      assert (text + [c])[n + 1..] == rest + [c] && (text + [c])[..n] == text[..n];
      WordsAre(text + [c], n);
      WordsSnoc(rest, c);
      ExtendedAfter(Word(text[..n]), Words(rest), Open(rest), c);
    }
  }

  lemma ExtendedAfter(first: seq<string>, words: seq<string>, open: bool, c: char)
    requires open ==> words != []
    ensures Extended(first + words, open, c) == first + Extended(words, open, c)
  {
    hide Shown;
    var all := first + words;
    if open {
      var longer := words[|words| - 1] + [c];
      assert all[..|all| - 1] == first + words[..|words| - 1] && all[|all| - 1] == words[|words| - 1];
      assert first + words[..|words| - 1] + [longer] == first + (words[..|words| - 1] + [longer]);
    } else {
      assert all + [[c]] == first + (words + [[c]]);
    }
  }

  lemma PlainExtended(bare: string, c: char)
    requires !IsSpace(c)
    ensures var words := if bare == "" then [] else [bare];
      var longer := bare + if Hidden(c) then "" else [c];
      (if longer == "" then [] else [longer]) == Extended(words, bare != "", c)
  {
    hide Hidden, IsSpace;
    var longer := bare + if Hidden(c) then "" else [c];
    assert Hidden(c) ==> longer == bare;
    assert bare == "" && !Hidden(c) ==> longer == [c];
  }

  /** The case of text without white space. */
  lemma WordsSnocPlain(text: string, c: char)
    requires FirstSpace(text) == |text|
    ensures Open(text) ==> Words(text) != []
    ensures Words(text + [c]) == Extended(Words(text), Open(text), c)
    ensures Open(text + [c]) <==> if IsSpace(c) then false else Open(text) || Shown(c)
  {
    hide Hidden, IsSpace, Words, Open, FirstSpace, Bare;
    BareSnoc(text, c);
    Nothing();
    WordsAre(text, |text|);
    var longer := text + [c];
    if IsSpace(c) {
      WordsAre(longer, |text|);
      assert longer[..|text|] == text && longer[|text| + 1..] == "";
    } else {
      WordsAre(longer, |longer|);
      PlainExtended(Bare(text), c);
    }
  }

  lemma {:induction false} JoinExtended(words: seq<string>, c: char)
    requires words != []
    ensures Join(words[..|words| - 1] + [words[|words| - 1] + [c]], ' ') == Join(words, ' ') + [c]
  {
    var front, last := words[..|words| - 1], words[|words| - 1];
    assert words == front + [last];
    if front == [] {
    } else {
      JoinSnoc(front, last, ' ');
      JoinSnoc(front, last + [c], ' ');
    }
  }

  lemma WordsShow(text: string)
    ensures Words(text) != [] <==> Collapsed(text) != ""
  {
    WordsAreFilled(text);
    if Words(text) != [] {
      assert Words(text)[0] != "";
    }
  }

  lemma {:induction false} WordsAreFilled(text: string)
    ensures forall i :: 0 <= i < |Words(text)| ==> Words(text)[i] != ""
    decreases |text|
  {
    var n := FirstSpace(text);
    if n < |text| {
      WordsAreFilled(text[n + 1..]);
    }
  }

  /** One character more: nothing, the character, or a space and the character. */
  lemma CollapsedSnoc(text: string, c: char)
    ensures Open(text) ==> Collapsed(text) != ""
    ensures Collapsed(text + [c]) ==
      Collapsed(text) + if !Shown(c) then "" else if Open(text) || Collapsed(text) == "" then [c] else [' ', c]
  {
    hide Words, Open, Shown;
    var words := Words(text);
    WordsSnoc(text, c);
    WordsShow(text);
    if Shown(c) {
      if Open(text) {
        JoinExtended(words, c);
      } else if words != [] {
        JoinSnoc(words, [c], ' ');
        assert Join(words, ' ') + [' '] + [c] == Join(words, ' ') + [' ', c];
      } else {
        assert words + [[c]] == [[c]];
      }
    }
  }

  /** The character loop. */
  method Clean(text: string, limit: nat) returns (cleaned: string)
    requires limit >= 1
    ensures cleaned == CleanText(text, limit)
  {
    hide Collapsed, Open, Hidden, IsSpace;
    var out, pendingSpace := "", false;
    Nothing();
    for i := 0 to |text|
      invariant out == Collapsed(text[..i])
      invariant pendingSpace <==> out != "" && !Open(text[..i])
      invariant Open(text[..i]) ==> out != ""
    {
      var c := text[i];
      assert text[..i + 1] == text[..i] + [c];
      CollapsedSnoc(text[..i], c);
      WordsSnoc(text[..i], c);
      if IsSpace(c) {
        pendingSpace := out != "";
        continue;
      }
      if Hidden(c) {
        continue;
      }
      if pendingSpace {
        out := out + [' '];
        pendingSpace := false;
      }
      out := out + [c];
    }
    assert text[..|text|] == text;
    cleaned := out;
    if |cleaned| > limit {
      cleaned := StripRight(cleaned[..limit - 1]) + "\U{2026}";
    }
  }

  lemma Nothing()
    ensures Words("") == [] && Collapsed("") == "" && !Open("")
  {
  }

  predicate Placed(text: string, i: int)
    requires 0 <= i < |text|
  {
    Shown(text[i]) || (text[i] == ' ' && 0 < i && Shown(text[i - 1]))
  }

  /** Nothing hidden, and no white space but single spaces after something that shows. */
  predicate Spaced(text: string) { forall i :: 0 <= i < |text| ==> Placed(text, i) }

  /** Fit to be published as it is. */
  predicate Tidy(text: string) { Spaced(text) && (text != "" ==> Shown(text[|text| - 1])) }

  lemma SpacedPrefix(text: string, n: nat)
    requires Spaced(text) && n <= |text|
    ensures Spaced(text[..n])
  {
    hide Shown;
    forall i | 0 <= i < n
      ensures Placed(text[..n], i)
    {
      assert Placed(text, i);
    }
  }

  lemma SpaceIsNotFirst(text: string)
    requires Spaced(text) && text != "" && text[|text| - 1] == ' '
    ensures |text| > 1
  {
    hide Hidden;
    assert Placed(text, 0);
  }

  lemma TidySnoc(text: string, c: char)
    requires Tidy(text) && Shown(c)
    ensures Tidy(text + [c])
  {
    hide Shown;
    forall i | 0 <= i < |text + [c]|
      ensures Placed(text + [c], i)
    {
      assert i < |text| ==> Placed(text, i);
    }
  }

  lemma SpacedSnoc(text: string, c: char)
    requires Tidy(text) && text != "" && Shown(c)
    ensures Tidy(text + [' ', c])
  {
    hide Shown;
    forall i | 0 <= i < |text + [' ', c]|
      ensures Placed(text + [' ', c], i)
    {
      assert i < |text| ==> Placed(text, i);
    }
  }

  lemma {:induction false} CollapsedIsTidy(text: string)
    ensures Tidy(Collapsed(text))
  {
    hide Collapsed, Open, Shown;
    if text == "" {
      Nothing();
    } else {
      var front, last := text[..|text| - 1], text[|text| - 1];
      CollapsedIsTidy(front);
      CollapsedSnoc(front, last);
      assert front + [last] == text;
      if Shown(last) {
        if Open(front) || Collapsed(front) == "" {
          TidySnoc(Collapsed(front), last);
        } else {
          SpacedSnoc(Collapsed(front), last);
        }
      } else {
        assert Collapsed(front) + "" == Collapsed(front);
      }
    }
  }

  /** How spaced text grows by its last character. */
  lemma SpacedStep(text: string)
    requires Spaced(text) && text != ""
    ensures var front, last := text[..|text| - 1], text[|text| - 1];
      && Spaced(front) && (last == ' ' <==> !Shown(last)) && (IsSpace(last) <==> last == ' ')
      && (last == ' ' ==> front != "" && front[|front| - 1] != ' ')
      && (front != "" && front[|front| - 1] == ' ' ==> |front| > 1)
  {
    hide Hidden;
    var front := text[..|text| - 1];
    SpacedPrefix(text, |text| - 1);
    assert Placed(text, |front|);
    if front != "" && front[|front| - 1] == ' ' {
      SpaceIsNotFirst(front);
    }
  }

  /** The text without a space at its end. */
  function Kept(text: string): string {
    if text != "" && text[|text| - 1] == ' ' then text[..|text| - 1] else text
  }

  lemma KeptSnoc(front: string, last: char)
    requires last == ' ' ==> front != "" && front[|front| - 1] != ' '
    requires front != "" && front[|front| - 1] == ' ' ==> |front| > 1
    ensures Kept(front) == "" <==> front == ""
    ensures Kept(front + [last]) == Kept(front) +
      if last == ' ' then "" else if front == "" || front[|front| - 1] != ' ' then [last] else [' ', last]
  {
    var text := front + [last];
    assert text[|text| - 1] == last && text[..|text| - 1] == front;
    if last == ' ' {
      assert front + "" == front;
    } else if front != "" && front[|front| - 1] == ' ' {
      assert text == front[..|front| - 1] + [' ', last];
    }
  }

  lemma {:induction false} SpacedIsKept(text: string)
    requires Spaced(text)
    ensures Collapsed(text) == Kept(text)
    ensures Open(text) <==> text != "" && text[|text| - 1] != ' '
  {
    hide Collapsed, Open, Shown, Spaced, Kept;
    if text == "" {
      Nothing();
      KeptNothing();
    } else {
      var front, last := text[..|text| - 1], text[|text| - 1];
      SpacedStep(text);
      SpacedIsKept(front);
      CollapsedSnoc(front, last);
      WordsSnoc(front, last);
      KeptSnoc(front, last);
      assert front + [last] == text;
    }
  }

  lemma KeptNothing()
    ensures Kept("") == ""
  {
  }

  /** What is fit already and short enough is left as it is. */
  lemma TidyIsKept(text: string, limit: nat)
    requires limit >= 1 && Tidy(text) && |text| <= limit
    ensures CleanText(text, limit) == text
  {
    hide Collapsed, Hidden;
    SpacedIsKept(text);
  }

  lemma {:induction false} StrippedStaysSpaced(text: string)
    requires Spaced(text)
    ensures Tidy(StripRight(text))
  {
    hide Hidden;
    if text != "" && IsSpace(text[|text| - 1]) {
      SpacedPrefix(text, |text| - 1);
      StrippedStaysSpaced(text[..|text| - 1]);
    } else if text != "" {
      assert Placed(text, |text| - 1);
    }
  }

  /** Cleaned text is fit to be published, within its limit, and cleaning it again changes nothing. */
  lemma CleaningIsFinal(text: string, limit: nat)
    requires limit >= 1
    ensures var cleaned := CleanText(text, limit);
      |cleaned| <= limit && Tidy(cleaned) && CleanText(cleaned, limit) == cleaned
  {
    hide Collapsed, Hidden;
    var whole, cleaned := Collapsed(text), CleanText(text, limit);
    CollapsedIsTidy(text);
    if |whole| > limit {
      var front := whole[..limit - 1];
      SpacedPrefix(whole, limit - 1);
      StrippedStaysSpaced(front);
      StripRightIsPrefix(front);
      EllipsisShows();
      TidySnoc(StripRight(front), '\U{2026}');
    }
    TidyIsKept(cleaned, limit);
  }

  lemma EllipsisShows()
    ensures Shown('\U{2026}')
  {
  }

  // --- what cleaning keeps --------------------------------------------------------------------

  /** The characters that show. */
  function Visible(text: string): string {
    if text == "" then "" else
      Visible(text[..|text| - 1]) + if Shown(text[|text| - 1]) then [text[|text| - 1]] else ""
  }

  lemma VisibleSnoc(text: string, c: char)
    ensures Visible(text + [c]) == Visible(text) + if Shown(c) then [c] else ""
  {
    hide Shown;
    assert (text + [c])[..|text|] == text;
  }

  /** Nothing that shows is lost, moved or made up. */
  lemma {:induction false} CollapsingKeepsVisible(text: string)
    ensures Visible(Collapsed(text)) == Visible(text)
  {
    hide Collapsed, Open, Shown, Visible;
    if text == "" {
      Nothing();
    } else {
      var front, last := text[..|text| - 1], text[|text| - 1];
      var before := Collapsed(front);
      assert front + [last] == text;
      CollapsingKeepsVisible(front);
      CollapsedSnoc(front, last);
      VisibleSnoc(front, last);
      assert before + "" == before && Visible(front) + "" == Visible(front);
      VisibleSnoc(before, last);
      VisibleSnoc(before, ' ');
      VisibleSnoc(before + [' '], last);
      SpaceShowsNothing();
      assert before + [' ', last] == before + [' '] + [last];
      assert Visible(before) + "" == Visible(before);
    }
  }

  lemma SpaceShowsNothing()
    ensures !Shown(' ')
  {
  }

  /** Texts that read alike so far read alike with the same text after them. */
  lemma {:induction false} SameAfter(a: string, b: string, more: string)
    requires Collapsed(a) == Collapsed(b) && Open(a) == Open(b)
    ensures Collapsed(a + more) == Collapsed(b + more) && Open(a + more) == Open(b + more)
  {
    hide Collapsed, Open, Shown, Words, Extended;
    if more == "" {
      assert a + more == a && b + more == b;
    } else {
      var front, last := more[..|more| - 1], more[|more| - 1];
      SameAfter(a, b, front);
      CollapsedSnoc(a + front, last);
      CollapsedSnoc(b + front, last);
      WordsSnoc(a + front, last);
      WordsSnoc(b + front, last);
      assert a + front + [last] == a + more && b + front + [last] == b + more;
    }
  }

  /**
   * A hidden character anywhere might as well not be there, a stretch of white space might be
   * any other, and what is published is the collapsed text or the front of it and an ellipsis.
   */
  lemma CleaningIs(before: string, c: char, space: char, after: string, limit: nat)
    requires limit >= 1
    ensures Hidden(c) && !IsSpace(c) ==> CleanText(before + [c] + after, limit) == CleanText(before + after, limit)
    ensures IsSpace(c) && IsSpace(space) ==>
      && CleanText(before + [c] + after, limit) == CleanText(before + [space] + after, limit)
      && CleanText(before + [c, space] + after, limit) == CleanText(before + [c] + after, limit)
    ensures Ingest.ShortenedTo(CleanText(before, limit), Collapsed(before), limit)
  {
    hide Collapsed, Open, Words, IsSpace, Hidden, StripRight;
    CollapsedSnoc(before, c);
    WordsSnoc(before, c);
    CollapsedSnoc(before, space);
    WordsSnoc(before, space);
    CollapsedSnoc(before + [c], space);
    WordsSnoc(before + [c], space);
    assert before + [c] + [space] == before + [c, space];
    assert Collapsed(before) + "" == Collapsed(before);
    if Hidden(c) && !IsSpace(c) {
      SameAfter(before + [c], before, after);
    }
    if IsSpace(c) && IsSpace(space) {
      assert Collapsed(before + [c]) + "" == Collapsed(before + [c]);
      SameAfter(before + [c], before + [space], after);
      SameAfter(before + [c, space], before + [c], after);
    }
    Ingest.TruncateShortens(Collapsed(before), limit);
  }

  // --- reading catalogue entries back ---------------------------------------------------------

  datatype KevFields = KevFields(cve: string, name: string, description: string, due: Option<string>, ransomware: bool)

  /** The pattern `(CVE-...)(?::\s+(.+))?` over a whole stripped title: the identifier and the name. */
  function ReadTitle(title: string): Option<(string, string)> {
    match CvePrefix(title)
    case None => None
    case Some(n) =>
      if n == |title| then Some((title, ""))
      else if title[n] != ':' then None
      else
        var rest := title[n + 1..];
        var k := LeadingSpaces(rest);
        if k == 0 || k == |rest| then None else Some((title[..n], rest[k..]))
  }

  /** Where the text ends in a deadline sentence, alone or after white space, and its date is one. */
  predicate EndsInDue(s: string) {
    && |s| >= DUE_LENGTH
    && var k := |s| - DUE_LENGTH;
       && s[k..k + |DUE|] == DUE && s[|s| - 1] == '.' && FromIso(s[|s| - 11..|s| - 1]).Some?
       && (k == 0 || IsSpace(s[k - 1]))
  }

  function BeforeDue(s: string): string
    requires EndsInDue(s)
  {
    if |s| == DUE_LENGTH then "" else Strip(s[..|s| - DUE_LENGTH - 1])
  }

  predicate EndsInRansomware(s: string) {
    EndsWith(s, RANSOMWARE) && (|s| == |RANSOMWARE| || s[|s| - |RANSOMWARE| - 1] == ' ')
  }

  datatype Reading = Reading(text: string, due: Option<string>, ransomware: bool)

  function ReadRansomware(s: string, due: Option<string>): Reading {
    if EndsInRansomware(s) then Reading(Strip(s[..|s| - |RANSOMWARE|]), due, true) else Reading(s, due, false)
  }

  function ReadFacts(s: string): Reading {
    if EndsInDue(s) then ReadRansomware(BeforeDue(s), Some(s[|s| - 11..|s| - 1])) else ReadRansomware(s, None)
  }

  function ParseKevItem(title: string, summary: Option<string>): Option<KevFields> {
    match ReadTitle(Strip(title))
    case None => None
    case Some((cve, name)) =>
      var reading := ReadFacts(Strip(match summary case Some(text) => text case None => ""));
      Some(KevFields(
        cve, CleanText(name, MAX_KEV_NAME_CHARS), CleanText(reading.text, MAX_KEV_DESCRIPTION_CHARS),
        reading.due, reading.ransomware))
  }
}
