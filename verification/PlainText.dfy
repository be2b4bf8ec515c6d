/** Reducing feed text to plain text: what the application does after the markup stripper. */
module PlainText {
  import opened Text

  /** How much of the text the pattern `<[^>]*>` takes from its start, if it matches there. */
  function TagLength(s: string): (n: nat)
    ensures n <= |s|
  {
    if s != "" && s[0] == '<' && Find(s, {'>'}) < |s| then Find(s, {'>'}) + 1 else 0
  }

  /** Each match of the pattern replaced by a space. */
  function Untagged(s: string): string
    decreases |s|
  {
    if s == "" then ""
    else if TagLength(s) > 0 then " " + Untagged(s[TagLength(s)..])
    else [s[0]] + Untagged(s[1..])
  }

  predicate IsControl(c: char) {
    c <= '\U{8}' || c == '\U{B}' || c == '\U{C}' || '\U{E}' <= c <= '\U{1F}' || c == '\U{7F}'
  }

  function Uncontrolled(s: string): string {
    if s == "" then "" else (if IsControl(s[0]) then "" else [s[0]]) + Uncontrolled(s[1..])
  }

  /** The pattern `\s+`, each match replaced by a space. */
  function Squeezed(s: string): string
    decreases |s|
  {
    if s == "" then ""
    else if IsSpace(s[0]) then SpacesLead(s); " " + Squeezed(s[LeadingSpaces(s)..])
    else [s[0]] + Squeezed(s[1..])
  }

  lemma SpacesLead(s: string)
    requires s != "" && IsSpace(s[0])
    ensures LeadingSpaces(s) >= 1
  {
  }

  function Flattened(s: string): string { Strip(Squeezed(Uncontrolled(Untagged(s)))) }

  /** `markup` is the stripping and unescaping done by foreign code; empty text is no text. */
  function ToPlainText(markup: string -> string, raw: Option<string>): Option<string> {
    if raw.None? || Flattened(markup(raw.value)) == "" then None else Some(Flattened(markup(raw.value)))
  }

  // --- lengths ------------------------------------------------------------------------------

  lemma {:induction false} UntaggedShrinks(s: string)
    ensures |Untagged(s)| <= |s|
    decreases |s|
  {
    hide TagLength;
    if s != "" {
      if TagLength(s) > 0 {
        UntaggedShrinks(s[TagLength(s)..]);
      } else {
        UntaggedShrinks(s[1..]);
      }
    }
  }

  lemma {:induction false} UncontrolledShrinks(s: string)
    ensures |Uncontrolled(s)| <= |s|
  {
    if s != "" {
      UncontrolledShrinks(s[1..]);
    }
  }

  lemma {:induction false} SqueezedShrinks(s: string)
    ensures |Squeezed(s)| <= |s|
    decreases |s|
  {
    if s != "" {
      if IsSpace(s[0]) {
        SpacesLead(s);
        SqueezedShrinks(s[LeadingSpaces(s)..]);
      } else {
        SqueezedShrinks(s[1..]);
      }
    }
  }

  /** Plain text is never longer than what it was made from, and has no white space at its ends. */
  lemma FlattenedShrinks(s: string)
    ensures |Flattened(s)| <= |s| && Stripped(Flattened(s))
  {
    UntaggedShrinks(s);
    UncontrolledShrinks(Untagged(s));
    SqueezedShrinks(Uncontrolled(Untagged(s)));
    StripIsStripped(Squeezed(Uncontrolled(Untagged(s))));
  }

  // --- text joined to other text ------------------------------------------------------------

  lemma {:induction false} UntaggedAppend(s: string, more: string)
    requires '<' !in more && '>' !in more
    ensures Untagged(s + more) == Untagged(s) + more
    decreases |s| + |more|
  {
    hide Untagged, TagLength;
    UntaggedStep(s);
    UntaggedStep(s + more);
    TagAppend(s, more);
    if s == "" {
      assert s + more == more;
      if more != "" {
        assert more == [more[0]] + more[1..];
        UntaggedAppend("", more[1..]);
        assert "" + more[1..] == more[1..];
      }
    } else {
      var n := TagLength(s);
      if n > 0 {
        assert (s + more)[n..] == s[n..] + more;
        UntaggedAppend(s[n..], more);
      } else {
        assert (s + more)[1..] == s[1..] + more;
        UntaggedAppend(s[1..], more);
      }
    }
  }

  lemma TagAppend(s: string, more: string)
    requires '<' !in more && '>' !in more
    ensures TagLength(s + more) == TagLength(s)
  {
    hide Find;
    FindBeyond(s, more, '>');
    if s == "" {
      assert s + more == more && forall c :: c in more ==> c != '<';
    }
  }

  lemma UntaggedStep(s: string)
    ensures s == "" ==> Untagged(s) == ""
    ensures s != "" && TagLength(s) > 0 ==> Untagged(s) == " " + Untagged(s[TagLength(s)..])
    ensures s != "" && TagLength(s) == 0 ==> Untagged(s) == [s[0]] + Untagged(s[1..])
  {
    hide TagLength;
  }

  lemma FindBeyond(s: string, more: string, c: char)
    requires c !in more
    ensures Find(s + more, {c}) == if Find(s, {c}) < |s| then Find(s, {c}) else |s + more|
  {
    var n := Find(s, {c});
    if n < |s| {
      FindIs(s + more, {c}, n);
    } else {
      forall i | 0 <= i < |s + more|
        ensures (s + more)[i] != c
      {
        assert i >= |s| ==> (s + more)[i] == more[i - |s|] && more[i - |s|] in more;
      }
      FindIs(s + more, {c}, |s + more|);
    }
  }

  lemma {:induction false} UntaggedPrepend(front: string, s: string)
    requires '<' !in front
    ensures Untagged(front + s) == front + Untagged(s)
  {
    if front == "" {
      assert front + s == s;
    } else {
      assert (front + s)[1..] == front[1..] + s && (front + s)[0] == front[0] && front[0] in front;
      UntaggedPrepend(front[1..], s);
    }
  }

  lemma {:induction false} UncontrolledConcat(a: string, b: string)
    ensures Uncontrolled(a + b) == Uncontrolled(a) + Uncontrolled(b)
  {
    if a == "" {
      assert a + b == b;
    } else {
      assert (a + b)[1..] == a[1..] + b;
      UncontrolledConcat(a[1..], b);
    }
  }

  lemma {:induction false} UncontrolledNone(s: string)
    requires forall i :: 0 <= i < |s| ==> !IsControl(s[i])
    ensures Uncontrolled(s) == s
  {
    if s != "" {
      UncontrolledNone(s[1..]);
      assert s == [s[0]] + s[1..];
    }
  }

  lemma {:induction false} LeadingSpacesIs(s: string, n: nat)
    requires n <= |s| && (n < |s| ==> !IsSpace(s[n])) && forall i :: 0 <= i < n ==> IsSpace(s[i])
    ensures LeadingSpaces(s) == n
  {
    if n > 0 {
      LeadingSpacesIs(s[1..], n - 1);
    }
  }

  lemma SqueezedStep(s: string)
    ensures s == "" ==> Squeezed(s) == ""
    ensures s != "" && IsSpace(s[0]) ==> LeadingSpaces(s) >= 1 && Squeezed(s) == " " + Squeezed(s[LeadingSpaces(s)..])
    ensures s != "" && !IsSpace(s[0]) ==> Squeezed(s) == [s[0]] + Squeezed(s[1..])
  {
    hide IsSpace;
    if s != "" && IsSpace(s[0]) {
      SpacesLead(s);
    }
  }

  lemma {:induction false} SqueezedAppend(s: string, more: string)
    requires more != "" && !IsSpace(more[0])
    ensures Squeezed(s + more) == Squeezed(s) + Squeezed(more)
    decreases |s|
  {
    hide Squeezed, IsSpace, LeadingSpaces;
    SqueezedStep(s);
    SqueezedStep(s + more);
    if s == "" {
      assert s + more == more;
    } else if IsSpace(s[0]) {
      var n := LeadingSpaces(s);
      assert (s + more)[0] == s[0] && (s + more)[n..] == s[n..] + more;
      LeadingSpacesIs(s + more, n);
      SqueezedAppend(s[n..], more);
    } else {
      assert (s + more)[0] == s[0] && (s + more)[1..] == s[1..] + more;
      SqueezedAppend(s[1..], more);
    }
  }

  /** White space at the end is squeezed into one space. */
  lemma {:induction false} SqueezedSpace(s: string)
    ensures Squeezed(s + " ") == StripRight(Squeezed(s)) + " "
    decreases |s|
  {
    if s == "" {
      SpaceAlone();
      assert s + " " == " ";
    } else if IsSpace(s[0]) {
      SqueezedSpaceAfterSpaces(s);
    } else {
      assert (s + " ")[1..] == s[1..] + " " && (s + " ")[0] == s[0];
      SqueezedSpace(s[1..]);
      StripRightCons(s[0], Squeezed(s[1..]));
    }
  }

  lemma SpaceAlone()
    ensures Squeezed(" ") == " " && Squeezed("") == "" && StripRight("") == "" && StripRight(" ") == "" && IsSpace(' ')
  {
    LeadingSpacesIs(" ", 1);
    assert " "[1..] == "" && " "[..0] == "";
  }

  lemma StripRightCons(c: char, s: string)
    ensures !IsSpace(c) || StripRight(s) != "" ==> StripRight([c] + s) == [c] + StripRight(s)
    ensures IsSpace(c) && StripRight(s) == "" ==> StripRight([c] + s) == ""
    decreases |s|
  {
    hide IsSpace;
    if s == "" {
      assert [c] + s == [c] && [c][..0] == "";
    } else if IsSpace(s[|s| - 1]) {
      assert ([c] + s)[|s|] == s[|s| - 1] && ([c] + s)[..|s|] == [c] + s[..|s| - 1];
      StripRightCons(c, s[..|s| - 1]);
    } else {
      assert ([c] + s)[|s|] == s[|s| - 1];
    }
  }

  lemma SqueezedSpaceAfterSpaces(s: string)
    requires s != "" && IsSpace(s[0])
    ensures Squeezed(s + " ") == StripRight(Squeezed(s)) + " "
    decreases |s|, 0
  {
    hide Squeezed, StripRight, IsSpace, LeadingSpaces;
    var n := LeadingSpaces(s);
    SpacesLead(s);
    SpaceAlone();
    SqueezedStep(s);
    SqueezedStep(s + " ");
    if n == |s| {
      LeadingSpacesIs(s + " ", n + 1);
      assert s[n..] == "" && (s + " ")[n + 1..] == "";
      assert " " + "" == " " && "" + " " == " ";
    } else {
      LeadingSpacesAppend(s, " ");
      assert (s + " ")[n..] == s[n..] + " ";
      SqueezedSpace(s[n..]);
      SqueezedStarts(s[n..]);
      StripRightCons(' ', Squeezed(s[n..]));
      assert " " + Squeezed(s[n..]) == [' '] + Squeezed(s[n..]);
      assert [' '] + StripRight(Squeezed(s[n..])) + " " == " " + (StripRight(Squeezed(s[n..])) + " ");
    }
  }

  lemma SqueezedStarts(s: string)
    requires s != "" && !IsSpace(s[0])
    ensures Squeezed(s) != "" && Squeezed(s)[0] == s[0] && StripRight(Squeezed(s)) != ""
  {
    StripRightCons(s[0], Squeezed(s[1..]));
  }

  /** Text that plain text is made of already: no angle brackets, no controls, single inner spaces. */
  predicate Neat(s: string) {
    && s != "" && !IsSpace(s[0]) && !IsSpace(s[|s| - 1])
    && (forall i :: 0 <= i < |s| ==> s[i] != '<' && s[i] != '>' && !IsControl(s[i]))
    && (forall i :: 0 <= i < |s| - 1 && IsSpace(s[i]) ==> s[i] == ' ' && !IsSpace(s[i + 1]))
  }

  lemma {:induction false} SqueezedNeat(s: string)
    requires forall i :: 0 <= i < |s| && IsSpace(s[i]) ==> s[i] == ' ' && (i + 1 < |s| ==> !IsSpace(s[i + 1]))
    ensures Squeezed(s) == s
  {
    if s != "" {
      forall i | 0 <= i < |s[1..]| && IsSpace(s[1..][i])
        ensures s[1..][i] == ' ' && (i + 1 < |s[1..]| ==> !IsSpace(s[1..][i + 1]))
      {
        assert s[1..][i] == s[i + 1] && (i + 1 < |s[1..]| ==> s[1..][i + 1] == s[i + 2]);
      }
      SqueezedNeat(s[1..]);
      assert s == [s[0]] + s[1..];
      if IsSpace(s[0]) {
        LeadingSpacesIs(s, 1);
      }
    }
  }

  // --- plain text with neat text around it --------------------------------------------------

  /** Two pieces with a space between them, if there are two. */
  function Glue(before: string, after: string): string { if before == "" then after else before + " " + after }

  /** Stripping works from both ends alike. */
  lemma {:induction false} StripFromRight(s: string)
    ensures Strip(s) == StripLeft(StripRight(s))
  {
    hide LeadingSpaces, IsSpace;
    if s == "" {
    } else if IsSpace(s[|s| - 1]) {
      var front := s[..|s| - 1];
      StripFromRight(front);
      if LeadingSpaces(s) == |s| {
        LeadingSpacesIs(front, |front|);
      } else {
        LeadingSpacesIs(front, LeadingSpaces(s));
        assert StripLeft(s)[..|StripLeft(s)| - 1] == StripLeft(front);
      }
    } else {
      SomethingShows(s);
      StripRightIs(s);
      StripRightIs(StripLeft(s));
    }
  }

  lemma StripGlue(s: string, more: string)
    requires more != "" && Stripped(more)
    ensures Strip(StripRight(s) + " " + more) == Glue(Strip(s), more)
  {
    hide Strip, StripLeft, StripRight, IsSpace;
    var front := StripRight(s);
    StripFromRight(s);
    StripRightIsPrefix(s);
    if front == "" {
      StripAfterSpace(more);
      assert "" + " " + more == " " + more;
    } else {
      StripInner(front, more);
    }
  }

  lemma StripAfterSpace(more: string)
    requires more != "" && Stripped(more)
    ensures Strip(" " + more) == more && StripLeft("") == ""
  {
    SpaceAlone();
    assert (" " + more)[1..] == more;
    LeadingSpacesIs(" " + more, 1);
    StripRightIs(more);
  }

  lemma StripInner(front: string, more: string)
    requires front != "" && !IsSpace(front[|front| - 1]) && more != "" && Stripped(more)
    ensures StripLeft(front) != "" && Strip(front + " " + more) == StripLeft(front) + " " + more
  {
    hide StripRight, LeadingSpaces, IsSpace;
    var n := LeadingSpaces(front);
    SomethingShows(front);
    var all := front + (" " + more);
    assert front + " " + more == all;
    LeadingSpacesAppend(front, " " + more);
    assert all[n..] == front[n..] + " " + more;
    StripRightIs(all[n..]);
  }

  lemma StripRightIs(s: string)
    requires s != "" && !IsSpace(s[|s| - 1])
    ensures StripRight(s) == s
  {
  }

  lemma SomethingShows(s: string)
    requires s != "" && !IsSpace(s[|s| - 1])
    ensures LeadingSpaces(s) < |s|
  {
  }

  lemma LeadingSpacesAppend(s: string, more: string)
    requires LeadingSpaces(s) < |s|
    ensures LeadingSpaces(s + more) == LeadingSpaces(s)
  {
    hide IsSpace;
    assert forall i :: 0 <= i < |s| ==> (s + more)[i] == s[i];
    LeadingSpacesIs(s + more, LeadingSpaces(s));
  }

  lemma NeatIsFixed(s: string)
    requires Neat(s)
    ensures '<' !in s && '>' !in s && Untagged(s) == s && Uncontrolled(s) == s && Squeezed(s) == s && Strip(s) == s
  {
    hide Untagged, Uncontrolled, Squeezed, Strip, Stripped, IsControl, IsSpace, Neat;
    NeatHas(s);
    UntaggedAppend("", s);
    NothingUntagged();
    assert "" + s == s;
    UncontrolledNone(s);
    SqueezedNeat(s);
    StrippedIsFixed(s);
  }

  lemma NeatHas(s: string)
    requires Neat(s)
    ensures '<' !in s && '>' !in s && Stripped(s) && s != ""
    ensures forall i :: 0 <= i < |s| ==> !IsControl(s[i])
    ensures forall i :: 0 <= i < |s| && IsSpace(s[i]) ==> s[i] == ' ' && (i + 1 < |s| ==> !IsSpace(s[i + 1]))
  {
    hide IsControl, IsSpace;
  }

  lemma NothingUntagged()
    ensures Untagged("") == ""
  {
  }

  /** Neat text at the end of a text comes through as it is. */
  lemma FlattenedGlue(s: string, more: string)
    requires Neat(more)
    ensures Flattened(s + " " + more) == Glue(Flattened(s), more)
    ensures Flattened(more) == more
  {
    hide Untagged, Uncontrolled, Squeezed, Strip, StripRight, Neat;
    NeatIsFixed(more);
    NeatEnds(more);
    var tail := " " + more;
    assert s + " " + more == s + tail;
    UntaggedAppend(s, tail);
    var t := Untagged(s);
    UncontrolledConcat(t, tail);
    UncontrolledConcat(" ", more);
    UncontrolledNone(" ");
    var u := Uncontrolled(t);
    assert u + tail == (u + " ") + more;
    SqueezedAppend(u + " ", more);
    SqueezedSpace(u);
    StripGlue(Squeezed(u), more);
  }

  lemma NeatEnds(s: string)
    requires Neat(s)
    ensures s != "" && Stripped(s) && !IsSpace(s[0]) && '<' !in " " + s && '>' !in " " + s && !IsControl(' ')
  {
  }

  /** A word at the start of a text, neat and without white space, comes through as it is. */
  lemma FlattenedAfter(word: string, s: string)
    requires Neat(word) && forall i :: 0 <= i < |word| ==> !IsSpace(word[i])
    ensures Flattened(word + " " + s) == if Flattened(s) == "" then word else word + " " + Flattened(s)
  {
    hide Untagged, Uncontrolled, Squeezed, Neat;
    NeatIsFixed(word);
    NeatEnds(word);
    var front := word + " ";
    UntaggedPrepend(front, s);
    var t := Untagged(s);
    UncontrolledConcat(front, t);
    UncontrolledConcat(word, " ");
    UncontrolledNone(" ");
    var u := Uncontrolled(t);
    assert front + u == word + (" " + u);
    SqueezedWord(word, " " + u);
    SqueezedLead(u);
    StripAfterWord(word, Squeezed(u));
  }

  lemma {:induction false} SqueezedWord(word: string, s: string)
    requires forall i :: 0 <= i < |word| ==> !IsSpace(word[i])
    ensures Squeezed(word + s) == word + Squeezed(s)
  {
    if word == "" {
      assert word + s == s;
    } else {
      assert (word + s)[1..] == word[1..] + s && (word + s)[0] == word[0];
      SqueezedWord(word[1..], s);
    }
  }

  /** White space at the start is squeezed into one space. */
  lemma SqueezedLead(s: string)
    ensures Squeezed(" " + s) == " " + StripLeft(Squeezed(s))
  {
    hide Squeezed, LeadingSpaces, IsSpace, StripLeft;
    SqueezedAfterSpace(s);
    SqueezedThenStripped(s);
  }

  lemma SqueezedAfterSpace(s: string)
    ensures Squeezed(" " + s) == " " + Squeezed(s[LeadingSpaces(s)..])
  {
    hide Squeezed, LeadingSpaces, IsSpace;
    SpaceAlone();
    var n := LeadingSpaces(s);
    assert (" " + s)[n + 1..] == s[n..];
    assert forall i :: 0 < i <= n ==> (" " + s)[i] == s[i - 1];
    LeadingSpacesIs(" " + s, n + 1);
    SqueezedStep(" " + s);
  }

  lemma SqueezedThenStripped(s: string)
    ensures StripLeft(Squeezed(s)) == Squeezed(s[LeadingSpaces(s)..])
  {
    hide Squeezed, LeadingSpaces, IsSpace;
    var n := LeadingSpaces(s);
    var rest := Squeezed(s[n..]);
    SpaceAlone();
    SqueezedStep(s);
    assert s[0..] == s;
    if n == |s| {
      assert s[n..] == "";
    } else {
      SqueezedStarts(s[n..]);
    }
    LeadingSpacesIs(rest, 0);
    LeadingSpacesIs(" " + rest, 1);
    assert (" " + rest)[1..] == rest;
  }

  lemma StripAfterWord(word: string, s: string)
    requires word != "" && Stripped(word)
    ensures Strip(word + (" " + StripLeft(s))) == if Strip(s) == "" then word else word + " " + Strip(s)
  {
    hide IsSpace, StripRight, LeadingSpaces;
    var left := StripLeft(s);
    var all := word + (" " + left);
    SpaceAlone();
    StripIsStripped(s);
    assert all[0] == word[0];
    LeadingSpacesIs(all, 0);
    assert all[0..] == all;
    StripRightAfter(word + " ", left);
    assert all == word + " " + left;
    StripRightIs(word);
    StripRightAfter(word, " ");
  }

  lemma {:induction false} StripRightAfter(a: string, b: string)
    ensures StripRight(a + b) == if StripRight(b) == "" then StripRight(a) else a + StripRight(b)
  {
    if b == "" {
      assert a + b == a;
    } else if IsSpace(b[|b| - 1]) {
      assert (a + b)[..|a + b| - 1] == a + b[..|b| - 1];
      StripRightAfter(a, b[..|b| - 1]);
    } else {
      assert (a + b)[|a + b| - 1] == b[|b| - 1];
    }
  }

  /** A last character that shows, and is no angle bracket, stays the last. */
  lemma FlattenedLast(s: string, c: char)
    requires !IsSpace(c) && !IsControl(c) && c != '<' && c != '>'
    ensures Flattened(s + [c]) != "" && Flattened(s + [c])[|Flattened(s + [c])| - 1] == c
  {
    hide Untagged, Uncontrolled, Squeezed;
    UntaggedAppend(s, [c]);
    UncontrolledConcat(Untagged(s), [c]);
    UncontrolledNone([c]);
    var u := Uncontrolled(Untagged(s));
    SqueezedAppend(u, [c]);
    SqueezedNeat([c]);
    StripRightAfter("", Squeezed(u) + [c]);
    LastStays(Squeezed(u), c);
  }

  lemma LastStays(s: string, c: char)
    requires !IsSpace(c)
    ensures Strip(s + [c]) != "" && Strip(s + [c])[|Strip(s + [c])| - 1] == c
  {
    assert (s + [c])[|s|] == c;
    assert LeadingSpaces(s + [c]) <= |s|;
  }

  lemma WordIsNeat(word: string)
    requires word != ""
    requires forall i :: 0 <= i < |word| ==> 'a' <= word[i] <= 'z' || 'A' <= word[i] <= 'Z' || word[i] == '.'
    ensures Neat(word)
  {
  }

  lemma NeatGlue(a: string, b: string)
    requires Neat(a) && Neat(b)
    ensures Neat(a + " " + b)
  {
    hide IsControl;
    var s := a + " " + b;
    SpaceAlone();
    assert s[|s| - 1] == b[|b| - 1];
    forall i | 0 <= i < |s|
      ensures s[i] != '<' && s[i] != '>' && !IsControl(s[i])
      ensures i < |s| - 1 && IsSpace(s[i]) ==> s[i] == ' ' && !IsSpace(s[i + 1])
    {
      SpaceIsNoControl();
      if i < |a| {
        assert s[i] == a[i] && (i + 1 < |a| ==> s[i + 1] == a[i + 1]);
      } else if i > |a| {
        var k := i - |a| - 1;
        assert s[i] == b[k] && (k + 1 < |b| ==> s[i + 1] == b[k + 1]);
      } else {
        assert s[i] == ' ' && s[i + 1] == b[0];
      }
    }
  }

  lemma SpaceIsNoControl()
    ensures !IsControl(' ')
  {
  }

  // --- what plain text never holds ------------------------------------------------------------

  /** No `<` has a `>` anywhere after it. */
  predicate Tagless(s: string) { forall i, j :: 0 <= i < j < |s| ==> !(s[i] == '<' && s[j] == '>') }

  lemma TaglessCons(c: char, s: string)
    ensures Tagless([c] + s) <==> Tagless(s) && (c == '<' ==> '>' !in s)
  {
    var all := [c] + s;
    assert forall i :: 0 <= i < |s| ==> all[i + 1] == s[i];
    if Tagless(all) && c == '<' {
      assert forall j :: 0 < j < |all| ==> !(all[0] == '<' && all[j] == '>');
    }
  }

  lemma {:induction false} UntaggedIsTagless(s: string)
    ensures Tagless(Untagged(s)) && ('>' !in s ==> '>' !in Untagged(s))
    decreases |s|
  {
    hide Tagless, TagLength;
    UntaggedStep(s);
    if s == "" {
      NothingIsTagless();
    } else if TagLength(s) > 0 {
      UntaggedIsTagless(s[TagLength(s)..]);
      TaglessCons(' ', Untagged(s[TagLength(s)..]));
    } else {
      UntaggedIsTagless(s[1..]);
      TaglessCons(s[0], Untagged(s[1..]));
      if s[0] == '<' {
        NoTagNoEnd(s);
      }
    }
  }

  lemma NothingIsTagless()
    ensures Tagless("")
  {
  }

  lemma NoTagNoEnd(s: string)
    requires s != "" && s[0] == '<' && TagLength(s) == 0
    ensures '>' !in s[1..]
  {
    assert forall i :: 0 <= i < |s| ==> s[i] != '>';
  }

  lemma {:induction false} UncontrolledStaysTagless(s: string)
    requires Tagless(s)
    ensures Tagless(Uncontrolled(s)) && ('>' !in s ==> '>' !in Uncontrolled(s))
    ensures forall i :: 0 <= i < |Uncontrolled(s)| ==> !IsControl(Uncontrolled(s)[i])
  {
    hide Tagless, IsControl;
    if s != "" {
      assert s == [s[0]] + s[1..];
      TaglessCons(s[0], s[1..]);
      UncontrolledStaysTagless(s[1..]);
      TaglessCons(s[0], Uncontrolled(s[1..]));
      assert "" + Uncontrolled(s[1..]) == Uncontrolled(s[1..]);
    }
  }

  /** White space is single spaces only. */
  predicate SingleSpaced(s: string) {
    forall i :: 0 <= i < |s| && IsSpace(s[i]) ==> s[i] == ' ' && (i + 1 < |s| ==> !IsSpace(s[i + 1]))
  }

  predicate NoControl(s: string) { forall i :: 0 <= i < |s| ==> !IsControl(s[i]) }

  lemma SingleCons(c: char, s: string)
    requires SingleSpaced(s) && (IsSpace(c) ==> c == ' ' && (s != "" ==> !IsSpace(s[0])))
    ensures SingleSpaced([c] + s)
  {
    hide IsSpace;
    assert forall i :: 0 < i < |s| + 1 ==> ([c] + s)[i] == s[i - 1];
  }

  lemma NoControlCons(c: char, s: string)
    ensures NoControl([c] + s) <==> !IsControl(c) && NoControl(s)
  {
    hide IsControl;
    assert forall i :: 0 <= i < |s| ==> ([c] + s)[i + 1] == s[i];
    assert ([c] + s)[0] == c;
  }

  lemma SpaceIsPlain()
    ensures !IsControl(' ') && IsSpace(' ')
  {
  }

  lemma SuffixOf(s: string, n: nat)
    requires n <= |s|
    ensures Tagless(s) ==> Tagless(s[n..])
    ensures NoControl(s) ==> NoControl(s[n..])
    ensures SingleSpaced(s) ==> SingleSpaced(s[n..])
    ensures '>' !in s ==> '>' !in s[n..]
  {
    hide IsSpace, IsControl;
    assert forall i :: 0 <= i < |s| - n ==> s[n..][i] == s[n + i];
  }

  lemma PrefixOf(s: string, n: nat)
    requires n <= |s|
    ensures Tagless(s) ==> Tagless(s[..n])
    ensures NoControl(s) ==> NoControl(s[..n])
    ensures SingleSpaced(s) ==> SingleSpaced(s[..n])
  {
    hide IsSpace, IsControl;
  }

  lemma {:induction false} SqueezedIsSpaced(s: string)
    requires Tagless(s) && NoControl(s)
    ensures Tagless(Squeezed(s)) && NoControl(Squeezed(s)) && SingleSpaced(Squeezed(s))
    ensures '>' !in s ==> '>' !in Squeezed(s)
    ensures s != "" && !IsSpace(s[0]) ==> Squeezed(s) != "" && Squeezed(s)[0] == s[0]
    decreases |s|
  {
    hide Tagless, NoControl, SingleSpaced, IsSpace, IsControl, Squeezed, LeadingSpaces;
    SqueezedStep(s);
    SpaceIsPlain();
    if s == "" {
      NothingIsSpaced();
    } else if IsSpace(s[0]) {
      var rest := s[LeadingSpaces(s)..];
      SuffixOf(s, LeadingSpaces(s));
      SqueezedIsSpaced(rest);
      TaglessCons(' ', Squeezed(rest));
      NoControlCons(' ', Squeezed(rest));
      SqueezedStep(rest);
      SingleCons(' ', Squeezed(rest));
    } else {
      assert s == [s[0]] + s[1..];
      TaglessCons(s[0], s[1..]);
      NoControlCons(s[0], s[1..]);
      SqueezedIsSpaced(s[1..]);
      TaglessCons(s[0], Squeezed(s[1..]));
      NoControlCons(s[0], Squeezed(s[1..]));
      SingleCons(s[0], Squeezed(s[1..]));
    }
  }

  lemma NothingIsSpaced()
    ensures Tagless("") && NoControl("") && SingleSpaced("")
  {
  }

  lemma {:induction false} UntaggedNone(s: string)
    requires Tagless(s)
    ensures Untagged(s) == s
  {
    hide Tagless, TagLength;
    UntaggedStep(s);
    if s != "" {
      assert s == [s[0]] + s[1..];
      TaglessCons(s[0], s[1..]);
      NoTag(s);
      UntaggedNone(s[1..]);
    }
  }

  lemma NoTag(s: string)
    requires s != "" && (s[0] == '<' ==> '>' !in s[1..])
    ensures TagLength(s) == 0
  {
    if s[0] == '<' {
      assert forall i :: 0 < i < |s| ==> s[i] == s[1..][i - 1] && s[1..][i - 1] in s[1..];
      FindIs(s, {'>'}, |s|);
    }
  }

  /**
   * Plain text holds nothing tag-shaped, no control character, and no white space but single
   * spaces inside; making it plain again changes nothing.
   */
  lemma PlainIsFinal(s: string)
    ensures Tagless(Flattened(s)) && NoControl(Flattened(s)) && SingleSpaced(Flattened(s)) && Stripped(Flattened(s))
    ensures Flattened(Flattened(s)) == Flattened(s)
  {
    hide Tagless, NoControl, SingleSpaced, IsControl, Untagged, Uncontrolled, Squeezed, LeadingSpaces, StripRight;
    var clean := Uncontrolled(Untagged(s));
    var flat := Flattened(s);
    UntaggedIsTagless(s);
    UncontrolledStaysTagless(Untagged(s));
    assert NoControl(clean) by { NoControlIs(clean); }
    SqueezedIsSpaced(clean);
    SuffixOf(Squeezed(clean), LeadingSpaces(Squeezed(clean)));
    StripRightIsPrefix(StripLeft(Squeezed(clean)));
    assert flat == StripLeft(Squeezed(clean))[..|flat|];
    PrefixOf(StripLeft(Squeezed(clean)), |flat|);
    StripIsStripped(Squeezed(clean));
    StaysPlain(flat);
  }

  lemma NoControlIs(s: string)
    requires forall i :: 0 <= i < |s| ==> !IsControl(s[i])
    ensures NoControl(s)
  {
  }

  lemma StaysPlain(s: string)
    requires Tagless(s) && NoControl(s) && SingleSpaced(s) && Stripped(s)
    ensures Flattened(s) == s
  {
    hide IsControl, IsSpace, Tagless, Strip, Stripped;
    UntaggedNone(s);
    UncontrolledNone(s);
    SqueezedNeat(s);
    StrippedIsFixed(s);
  }
}
