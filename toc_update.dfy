/** The TOC-rebuilding core of the service: the helpers at the top of
    `app.py` and the steps of `update_toc_word` from TOC stripping to the
    final cleanup, run against the abstract `WordModel.Document`. The Word
    calls listed in `Faults` take their outcome from a fault schedule, so the
    contracts cover their failure paths as well; the other Word calls never
    fail here. */
module TocUpdate {
  import opened PyText
  import opened WordModel

  datatype Option<T> = None | Some(value: T)

  datatype Result<T, E> = Ok(value: T) | Err(error: E)

  // ---------------------------------------------------------------------
  // _paragraph_index_for_position

  /** `Start <= pos <= End` for paragraph `i` (0-based): both ends count. */
  predicate Covers(ps: seq<Text>, i: nat, pos: int)
    requires i < |ps|
  {
    ParaStart(ps, i) <= pos <= ParaEnd(ps, i)
  }

  /** The first paragraph at or after `i` that covers `pos`. */
  function FirstCovering(ps: seq<Text>, pos: int, i: nat): (r: Option<nat>)
    requires i <= |ps|
    ensures r.Some? ==> i <= r.value < |ps| && Covers(ps, r.value, pos)
    ensures r.Some? ==> forall j :: i <= j < r.value ==> !Covers(ps, j, pos)
    ensures r.None? ==> forall j :: i <= j < |ps| ==> !Covers(ps, j, pos)
    decreases |ps| - i
  {
    if i == |ps| then None
    else if Covers(ps, i, pos) then Some(i)
    else FirstCovering(ps, pos, i + 1)
  }

  /** The 1-based index of the first paragraph whose range holds `pos`; 1 when
      none does but the document has paragraphs; `None` for no paragraphs. */
  function ParagraphIndexFor(ps: seq<Text>, pos: int): (r: Option<nat>)
    ensures r.None? <==> |ps| == 0
    ensures r.Some? ==> 1 <= r.value <= |ps|
    ensures r.Some? && Covers(ps, r.value - 1, pos) ==>
              forall j :: 0 <= j < r.value - 1 ==> !Covers(ps, j, pos)
    ensures r.Some? && !Covers(ps, r.value - 1, pos) ==>
              r.value == 1 && forall j :: 0 <= j < |ps| ==> !Covers(ps, j, pos)
  {
    match FirstCovering(ps, pos, 0)
    case Some(i) => Some(i + 1)
    case None => if |ps| >= 1 then Some(1) else None
  }

  /** `_paragraph_index_for_position`: walks the paragraphs keeping the
      running start offset. */
  method ParagraphIndexForPosition(doc: Document, pos: int) returns (r: Option<nat>)
    ensures r == ParagraphIndexFor(doc.paras, pos)
  {
    var ps := doc.paras;
    var idx := 0;
    var start := 0;
    assert ps[..0] == [];
    while idx < |ps|
      invariant idx <= |ps| && start == ParaStart(ps, idx)
      invariant FirstCovering(ps, pos, idx) == FirstCovering(ps, pos, 0)
    {
      ParaEndIsNextStart(ps, idx);
      var end := start + |ps[idx]| + 1;
      if start <= pos <= end {
        return Some(idx + 1);
      }
      idx := idx + 1;
      start := end;
    }
    if |ps| >= 1 {
      return Some(1);
    }
    return None;
  }

  /** A position shared by two paragraphs (the end of one is the start of the
      next) is reported as the earlier one. */
  lemma BoundaryPicksEarlier(ps: seq<Text>, i: nat)
    requires i + 1 < |ps|
    ensures ParagraphIndexFor(ps, ParaStart(ps, i + 1)) == Some(i + 1)
  {
    var pos := ParaStart(ps, i + 1);
    ParaEndIsNextStart(ps, i);
    forall j | 0 <= j < i ensures !Covers(ps, j, pos) {
      EndBeforeLaterStart(ps, j, i);
    }
    assert Covers(ps, i, pos);
  }

  /** Every offset from 0 to the end of the document lies in some paragraph,
      so the fallback answer 1 is only given for offsets outside it. */
  lemma InRangeIsCovered(ps: seq<Text>, pos: int)
    requires 0 <= pos <= Size(ps) && |ps| > 0
    ensures ParagraphIndexFor(ps, pos).Some?
    ensures Covers(ps, ParagraphIndexFor(ps, pos).value - 1, pos)
  {
    var i := CoveringWitness(ps, pos, 0);
  }

  /** Some paragraph at or after `i` covers `pos` when `pos` lies between
      paragraph `i`'s start and the document end. */
  lemma {:induction false} CoveringWitness(ps: seq<Text>, pos: int, i: nat) returns (k: nat)
    requires i < |ps| && ParaStart(ps, i) <= pos <= Size(ps)
    ensures i <= k < |ps| && Covers(ps, k, pos)
    decreases |ps| - i
  {
    ParaEndIsNextStart(ps, i);
    if pos <= ParaEnd(ps, i) {
      k := i;
    } else {
      if i + 1 == |ps| {
        StartOfAll(ps);
        assert false;
      }
      k := CoveringWitness(ps, pos, i + 1);
    }
  }

  // ---------------------------------------------------------------------
  // Locating the TOC heading

  /** The substrings the heading search looks for, in the source's order. */
  const Markers: seq<string> := ["table of contents", "toc", "contents"]

  /** `para.Range.Text.strip().lower()` */
  function HeadingText(t: Text): string {
    Lower(Strip(RangeText(t)))
  }

  /** `any(k in text for k in search_texts)` */
  predicate HasMarker(text: string) {
    exists k :: 0 <= k < |Markers| && Contains(text, Markers[k])
  }

  predicate IsMarker(t: Text) {
    HasMarker(HeadingText(t))
  }

  /** The first paragraph at or after `i` that carries a marker. */
  function AnchorFrom(ps: seq<Text>, i: nat): (r: Option<nat>)
    requires i <= |ps|
    ensures r.Some? ==> i <= r.value < |ps| && IsMarker(ps[r.value])
    ensures r.Some? ==> forall j :: i <= j < r.value ==> !IsMarker(ps[j])
    ensures r.None? ==> forall j :: i <= j < |ps| ==> !IsMarker(ps[j])
    decreases |ps| - i
  {
    if i == |ps| then None
    else if IsMarker(ps[i]) then Some(i)
    else AnchorFrom(ps, i + 1)
  }

  /** `toc_heading_para`, as a 0-based paragraph index: the first paragraph
      that carries a marker, none earlier, and no anchor when none does. */
  function FindAnchor(ps: seq<Text>): (r: Option<nat>)
    ensures r.Some? ==> r.value < |ps| && IsMarker(ps[r.value])
    ensures r.Some? ==> forall j :: 0 <= j < r.value ==> !IsMarker(ps[j])
    ensures r.None? <==> forall j :: 0 <= j < |ps| ==> !IsMarker(ps[j])
  {
    AnchorFrom(ps, 0)
  }

  /** The heading search of `update_toc_word`: the first paragraph that
      carries a marker, none earlier, and no anchor when none carries one. */
  method FindTocHeading(doc: Document) returns (anchor: Option<nat>)
    ensures anchor == FindAnchor(doc.paras)
  {
    var ps := doc.paras;
    var i := 0;
    while i < |ps|
      invariant i <= |ps|
      invariant AnchorFrom(ps, i) == FindAnchor(ps)
    {
      var text := HeadingText(ps[i]);
      if HasMarker(text) {
        return Some(i);
      }
      i := i + 1;
    }
    return None;
  }

  /** A marker paragraph is never blank, so no blank-paragraph collapse
      deletes it. */
  lemma MarkerNotBlank(t: Text)
    requires IsMarker(t)
    ensures !IsBlank(t)
  {
    var k :| 0 <= k < |Markers| && Contains(HeadingText(t), Markers[k]);
    ContainsNonEmpty(HeadingText(t), Markers[k]);
    BlankIff(t);
  }

  /** A page break in front of a paragraph does not change whether it is a
      marker. */
  lemma MarkerIgnoresLeadingBreak(t: Text)
    ensures IsMarker([ManualPageBreak] + t) <==> IsMarker(t)
  {
    StripIgnoresLeadingBreak(t);
  }

  /** "table of contents" is redundant in the marker list: any text holding
      it also holds "contents". */
  lemma FullMarkerImpliesContents(text: string)
    requires Contains(text, Markers[0])
    ensures Contains(text, Markers[2])
  {
    assert OccursAt(Markers[0], Markers[2], 9);
    ContainsTransitive(text, Markers[0], Markers[2]);
  }

  /** The test is a bare substring test: a paragraph whose text holds
      "toc" anywhere, inside a longer word included, counts as a TOC
      heading. */
  lemma SubstringIsMarker(t: Text)
    requires Contains(Render(t), Markers[1])
    ensures IsMarker(t)
  {
    var m := Markers[1];
    var i: nat :| i <= |Render(t)| && OccursAt(Render(t), m, i);
    var s := RangeText(t);
    assert s[i..i + |m|] == Render(t)[i..i + |m|];
    assert OccursAt(s, m, i);
    StripKeepsInner(s, m);
    LowerKeeps(Strip(s), m);
  }

  /** So a paragraph reading "Protocol" is taken for the TOC heading. */
  lemma ProtocolIsMarker(t: Text)
    requires Render(t) == "Protocol"
    ensures IsMarker(t)
  {
    assert OccursAt(Render(t), Markers[1], 3);
    SubstringIsMarker(t);
  }

  // ---------------------------------------------------------------------
  // Removing existing tables of contents

  /** How many `TablesOfContents(1).Delete()` calls succeed when `count`
      fields remain and `k` were already deleted: the loop stops at the first
      failing attempt instead of skipping that field. */
  function TocsRemoved(count: nat, k: nat, fails: set<nat>): (r: nat)
    ensures k <= r <= k + count
    ensures forall j :: k <= j < r ==> j !in fails
    ensures r == k + count || r in fails
    decreases count
  {
    if count == 0 || k in fails then k
    else TocsRemoved(count - 1, k + 1, fails)
  }

  /** The `while doc.TablesOfContents.Count > 0` loop: attempt `k` (0-based)
      raises exactly when `k` is in `fails`. */
  method RemoveExistingTocs(doc: Document, fails: set<nat>) returns (removed: nat)
    modifies doc
    ensures removed == TocsRemoved(|old(doc.tocs)|, 0, fails)
    ensures doc.tocs == old(doc.tocs)[removed..] && doc.paras == old(doc.paras)
  {
    removed := 0;
    while |doc.tocs| > 0
      invariant removed <= |old(doc.tocs)|
      invariant doc.tocs == old(doc.tocs)[removed..] && doc.paras == old(doc.paras)
      invariant TocsRemoved(|doc.tocs|, removed, fails) == TocsRemoved(|old(doc.tocs)|, 0, fails)
      decreases |doc.tocs|
    {
      if removed in fails {
        break;
      }
      doc.DeleteFirstToc();
      removed := removed + 1;
    }
  }

  /** No field is left exactly when none of the delete attempts failed. */
  lemma {:induction false} AllTocsGoneIff(count: nat, fails: set<nat>)
    ensures TocsRemoved(count, 0, fails) == count <==> forall j :: 0 <= j < count ==> j !in fails
  {
    var r := TocsRemoved(count, 0, fails);
    if r < count {
      assert r in fails;
    }
  }

  // ---------------------------------------------------------------------
  // Cleanup region

  /** How far the no-anchor cleanup region reaches at most. */
  const NoAnchorReach: nat := 2000

  /** End of the cleanup region: the heading's start when there is a heading,
      otherwise `min(2000, doc.Content.End)`. */
  function CleanupRegionEnd(ps: seq<Text>, anchor: Option<nat>): (e: nat)
    requires anchor.Some? ==> anchor.value < |ps|
  {
    if anchor.Some? then ParaStart(ps, anchor.value)
    else if Size(ps) < NoAnchorReach then Size(ps) else NoAnchorReach
  }

  /** The region never reaches past the document end; with a heading it
      stops right before the heading's first character; without one it is
      the first 2000 positions of any document at least that long. */
  lemma CleanupRegionBounds(ps: seq<Text>, anchor: Option<nat>)
    requires anchor.Some? ==> anchor.value < |ps|
    ensures CleanupRegionEnd(ps, anchor) <= Size(ps)
    ensures anchor.Some? ==> CleanupRegionEnd(ps, anchor) + |ps[anchor.value]| + 1 <= Size(ps)
    ensures anchor.Some? ==> (CleanupRegionEnd(ps, anchor) > 0 <==> anchor.value > 0)
    ensures anchor.None? && Size(ps) >= NoAnchorReach ==> CleanupRegionEnd(ps, anchor) == NoAnchorReach
    ensures anchor.None? ==> CleanupRegionEnd(ps, anchor) <= NoAnchorReach
  {
    if anchor.Some? {
      var h := anchor.value;
      EndBeforeLaterStart(ps, h, |ps|);
      StartOfAll(ps);
      StartPositiveIff(ps, h);
    }
  }

  /** The token set a replace-all of `tok` removes: nothing when it raises. */
  function KillIf(tok: Token, raises: bool): set<Token> {
    if raises then {} else {tok}
  }

  /** `_safe_find_replace_range`: a replace-all of `tok` by nothing in
      `[0, end)`; an exception leaves the document as it was. Returns where
      the range ends afterwards. */
  method SafeFindReplaceRange(doc: Document, end: nat, tok: Token, raises: bool) returns (newEnd: nat)
    modifies doc
    ensures doc.paras == Scrub(old(doc.paras), end, KillIf(tok, raises))
    ensures newEnd == end - (Size(old(doc.paras)) - Size(doc.paras))
    ensures doc.tocs == old(doc.tocs)
  {
    if raises {
      ScrubNothing(doc.paras, end);
      return end;
    }
    newEnd := doc.ReplaceAll(end, tok);
  }

  /** U+200B (zero-width space) and U+FEFF (byte-order mark), in the order
      they are removed. */
  const InvisibleChars: seq<char> := ['\U{200B}', '\U{FEFF}']

  /** The invisible characters among the first `n` whose replace-all did
      not raise. */
  function InvisibleKill(fails: set<nat>, n: nat): (r: set<Token>)
    requires n <= |InvisibleChars|
    ensures forall x :: x in r ==> exists i :: 0 <= i < n && i !in fails && x == Ch(InvisibleChars[i])
    ensures forall i :: 0 <= i < n && i !in fails ==> Ch(InvisibleChars[i]) in r
  {
    if n == 0 then {}
    else InvisibleKill(fails, n - 1) + KillIf(Ch(InvisibleChars[n - 1]), n - 1 in fails)
  }

  /** `_remove_invisible_chars_in_range`: one guarded replace-all per
      invisible character over the same, shrinking range. The result is one
      replace-all of every character whose call did not raise. */
  method RemoveInvisibleCharsInRange(doc: Document, end: nat, fails: set<nat>) returns (newEnd: nat)
    modifies doc
    ensures doc.paras == Scrub(old(doc.paras), end, InvisibleKill(fails, |InvisibleChars|))
    ensures newEnd == end - (Size(old(doc.paras)) - Size(doc.paras))
    ensures doc.tocs == old(doc.tocs)
  {
    ghost var ps := doc.paras;
    newEnd := end;
    ScrubNothing(ps, end);
    for i := 0 to |InvisibleChars|
      invariant doc.paras == Scrub(ps, end, InvisibleKill(fails, i))
      invariant newEnd == end - (Size(ps) - Size(doc.paras))
      invariant doc.tocs == old(doc.tocs)
    {
      ScrubCompose(ps, end, InvisibleKill(fails, i), KillIf(Ch(InvisibleChars[i]), i in fails));
      newEnd := SafeFindReplaceRange(doc, newEnd, Ch(InvisibleChars[i]), i in fails);
    }
  }

  /** Everything the cleanup removes: `^m`, `^b` and the invisible
      characters, less those whose replace-all raised. */
  function CleanupKill(pageBreakFails: bool, sectionBreakFails: bool, invisibleFails: set<nat>): set<Token> {
    KillIf(ManualPageBreak, pageBreakFails) + KillIf(SectionBreak, sectionBreakFails)
      + InvisibleKill(invisibleFails, |InvisibleChars|)
  }

  /** When none of the four replace-alls raises, the cleanup removes exactly
      both break kinds and both invisible characters. */
  lemma CleanupKillAll()
    ensures CleanupKill(false, false, {}) == {ManualPageBreak, SectionBreak, Ch('\U{200B}'), Ch('\U{FEFF}')}
  {
    var inv := InvisibleKill({}, |InvisibleChars|);
    assert Ch(InvisibleChars[0]) in inv && Ch(InvisibleChars[1]) in inv;
    forall x | x in inv ensures x == Ch('\U{200B}') || x == Ch('\U{FEFF}') {
      var i :| 0 <= i < 2 && x == Ch(InvisibleChars[i]);
    }
  }

  /** The four replace-alls of `update_toc_word` over one range `[0, end)`:
      page breaks, section breaks, then the invisible characters. */
  method CleanupRegion(doc: Document, end: nat, pageBreakFails: bool, sectionBreakFails: bool,
                       invisibleFails: set<nat>)
    modifies doc
    ensures doc.paras == Scrub(old(doc.paras), end, CleanupKill(pageBreakFails, sectionBreakFails, invisibleFails))
    ensures doc.tocs == old(doc.tocs)
  {
    ghost var ps := doc.paras;
    var a := KillIf(ManualPageBreak, pageBreakFails);
    var b := KillIf(SectionBreak, sectionBreakFails);
    var e := SafeFindReplaceRange(doc, end, ManualPageBreak, pageBreakFails);
    ScrubCompose(ps, end, a, b);
    e := SafeFindReplaceRange(doc, e, SectionBreak, sectionBreakFails);
    ScrubCompose(ps, end, a + b, InvisibleKill(invisibleFails, |InvisibleChars|));
    e := RemoveInvisibleCharsInRange(doc, e, invisibleFails);
  }

  // ---------------------------------------------------------------------
  // Deleting blank paragraphs at the start

  /** How many paragraphs `_delete_empty_paragraphs_at_start` deletes from
      `ps` when `k` were deleted already: it goes on while a paragraph is
      left, fewer than `maxIter` were deleted, the first one is blank and its
      delete (attempt `k`) does not raise. */
  function CollapseFrom(ps: seq<Text>, k: nat, maxIter: nat, fails: set<nat>): (r: nat)
    ensures k <= r && r - k <= |ps|
    ensures r <= k || r <= maxIter
    ensures forall j :: 0 <= j < r - k ==> IsBlank(ps[j]) && k + j !in fails
    ensures r >= maxIter || r - k == |ps| || !IsBlank(ps[r - k]) || r in fails
    decreases |ps|
  {
    if |ps| >= 1 && k < maxIter && IsBlank(ps[0]) && k !in fails then
      var r := CollapseFrom(ps[1..], k + 1, maxIter, fails);
      assert forall j :: 1 <= j < r - k ==> ps[j] == ps[1..][j - 1];
      r
    else k
  }

  function CollapseCount(ps: seq<Text>, maxIter: nat, fails: set<nat>): nat {
    CollapseFrom(ps, 0, maxIter, fails)
  }

  /** `_delete_empty_paragraphs_at_start(doc, max_iter)`; returns how many
      paragraphs it deleted. */
  method DeleteEmptyParagraphsAtStart(doc: Document, maxIter: nat, fails: set<nat>) returns (count: nat)
    modifies doc
    ensures count == CollapseCount(old(doc.paras), maxIter, fails)
    ensures doc.paras == old(doc.paras)[count..] && doc.tocs == old(doc.tocs)
  {
    count := 0;
    while |doc.paras| >= 1 && count < maxIter
      invariant count <= |old(doc.paras)|
      invariant doc.paras == old(doc.paras)[count..] && doc.tocs == old(doc.tocs)
      invariant CollapseFrom(doc.paras, count, maxIter, fails) == CollapseCount(old(doc.paras), maxIter, fails)
      decreases |doc.paras|
    {
      var txt := RangeText(doc.paras[0]);
      BlankIff(doc.paras[0]);
      if Strip(txt) == [] {
        if count in fails {
          break;
        }
        doc.DeleteFirstParagraph();
        count := count + 1;
      } else {
        break;
      }
    }
  }

  /** The collapse deletes at most `maxIter` paragraphs, only blank ones, and
      only a prefix: the rest keep their text and order. */
  lemma CollapseBounds(ps: seq<Text>, maxIter: nat, fails: set<nat>)
    ensures CollapseCount(ps, maxIter, fails) <= maxIter
    ensures CollapseCount(ps, maxIter, fails) <= |ps|
    ensures forall j :: 0 <= j < CollapseCount(ps, maxIter, fails) ==> IsBlank(ps[j])
  {
  }

  /** The collapse never gets past a paragraph that is not blank. */
  lemma CollapseStopsAtNonBlank(ps: seq<Text>, maxIter: nat, fails: set<nat>, j: nat)
    requires j < |ps| && !IsBlank(ps[j])
    ensures CollapseCount(ps, maxIter, fails) <= j
  {
  }

  /** A collapse that stopped below its ceiling and not because a delete
      raised leaves nothing for a second collapse to do. */
  lemma CollapseFixedPoint(ps: seq<Text>, maxIter: nat, fails: set<nat>, maxIter2: nat, fails2: set<nat>)
    requires CollapseCount(ps, maxIter, fails) < maxIter
    requires CollapseCount(ps, maxIter, fails) !in fails
    ensures CollapseCount(ps[CollapseCount(ps, maxIter, fails)..], maxIter2, fails2) == 0
  {
  }

  // ---------------------------------------------------------------------
  // Page break before the heading and TOC insertion

  /** The errors that abort `update_toc_word`. */
  datatype Failure =
    | DocumentUnreadable   // Documents.Open or the content read raised
    | EngineError          // InsertBreak or the fallback TablesOfContents.Add raised
    | DocumentWriteFailed  // SaveAs raised

  /** The page-break step: with a heading whose start is past offset 0, a
      page break goes in front of it; nothing happens otherwise. `Ok(b)`
      says whether a break went in; `InsertBreak` raising is not caught. */
  method EnsureHeadingOnOwnPage(doc: Document, anchor: Option<nat>, raises: bool) returns (r: Result<bool, Failure>)
    requires anchor.Some? ==> anchor.value < |doc.paras|
    modifies doc
    ensures r.Err? <==> anchor.Some? && anchor.value > 0 && raises
    ensures r.Err? ==> r.error == EngineError
    ensures r.Ok? ==> (r.value <==> anchor.Some? && anchor.value > 0)
    ensures r == Ok(true) ==>
              doc.paras == old(doc.paras)[anchor.value := [ManualPageBreak] + old(doc.paras)[anchor.value]]
    ensures r != Ok(true) ==> doc.paras == old(doc.paras)
    ensures doc.tocs == old(doc.tocs)
  {
    if anchor.Some? {
      var h := anchor.value;
      StartPositiveIff(doc.paras, h);
      if ParaStart(doc.paras, h) > 0 {
        if raises {
          return Err(EngineError);
        }
        doc.InsertPageBreakBefore(h);
        return Ok(true);
      }
    }
    return Ok(false);
  }

  /** Where the TOC goes: just past the heading paragraph's mark, or offset 0
      without a heading. */
  function TocInsertPoint(ps: seq<Text>, anchor: Option<nat>): (at: nat)
    requires anchor.Some? ==> anchor.value < |ps|
  {
    if anchor.Some? then ParaEnd(ps, anchor.value) else 0
  }

  /** With a heading the TOC starts where the paragraph after the heading
      starts (or at the document end), never before the heading. */
  lemma TocInsertPointAfterHeading(ps: seq<Text>, h: nat)
    requires h < |ps|
    ensures TocInsertPoint(ps, Some(h)) == ParaStart(ps, h + 1)
    ensures ParaStart(ps, h) < TocInsertPoint(ps, Some(h)) <= Size(ps)
  {
    ParaEndIsNextStart(ps, h);
    EndBeforeLaterStart(ps, h, |ps|);
    StartOfAll(ps);
  }

  /** `TablesOfContents.Add` with levels 1-3 and right-aligned page numbers;
      if that raises, a default `Add` at the same point, whose own exception
      is not caught. Returns the insertion offset. */
  method InsertToc(doc: Document, anchor: Option<nat>, styledFails: bool, defaultFails: bool)
    returns (r: Result<nat, Failure>)
    requires anchor.Some? ==> anchor.value < |doc.paras|
    modifies doc
    ensures r.Err? <==> styledFails && defaultFails
    ensures r.Err? ==> r.error == EngineError && doc.tocs == old(doc.tocs)
    ensures r.Ok? ==> r.value == TocInsertPoint(old(doc.paras), anchor)
    ensures r.Ok? ==>
              doc.tocs == old(doc.tocs) + [TocField(if styledFails then EngineDefault else Preferred, r.value)]
    ensures doc.paras == old(doc.paras)
  {
    var at := TocInsertPoint(doc.paras, anchor);
    if !styledFails {
      doc.AddToc(Preferred, at);
    } else if !defaultFails {
      doc.AddToc(EngineDefault, at);
    } else {
      return Err(EngineError);
    }
    return Ok(at);
  }

  // ---------------------------------------------------------------------
  // The shape of the document around the heading

  /** `ps` is `ps0` after deleting `d` leading paragraphs, filtering the
      paragraphs before the heading by `kill` and replacing the heading
      (index `h` in `ps0`, index `k` in `ps`) by `head`; everything after the
      heading is untouched. */
  predicate Shaped(ps: seq<Text>, ps0: seq<Text>, h: nat, k: nat, d: nat, kill: set<Token>, head: Text) {
    && h < |ps0| && k < |ps| && k + d == h
    && ps[k] == head
    && ps[k + 1..] == ps0[h + 1..]
    && forall j :: 0 <= j < k ==> ps[j] == Filter(ps0[j + d], kill)
  }

  /** The cleanup up to the heading's start leaves the heading and what
      follows it as they were. */
  lemma ShapedAfterCleanup(ps0: seq<Text>, h: nat, kill: set<Token>)
    requires h < |ps0|
    ensures Shaped(Scrub(ps0, ParaStart(ps0, h), kill), ps0, h, h, 0, kill, ps0[h])
  {
    var ps := Scrub(ps0, ParaStart(ps0, h), kill);
    ScrubBeforeParagraph(ps0, h, kill);
    assert ps[h + 1..] == ps0[h + 1..];
  }

  /** Deleting blank leading paragraphs never reaches a heading that is not
      blank, and keeps the shape. */
  lemma ShapedAfterCollapse(ps: seq<Text>, ps0: seq<Text>, h: nat, k: nat, d: nat, kill: set<Token>,
                            head: Text, n: nat)
    requires Shaped(ps, ps0, h, k, d, kill, head) && !IsBlank(head)
    requires n <= |ps| && forall j :: 0 <= j < n ==> IsBlank(ps[j])
    ensures n <= k && Shaped(ps[n..], ps0, h, k - n, d + n, kill, head)
  {
    assert ps[n..][k - n + 1..] == ps[k + 1..];
    forall j | 0 <= j < k - n ensures ps[n..][j] == Filter(ps0[j + d + n], kill) {
      assert ps[n..][j] == ps[j + n];
    }
  }

  /** A page break in front of the heading keeps the shape. */
  lemma ShapedAfterBreak(ps: seq<Text>, ps0: seq<Text>, h: nat, k: nat, d: nat, kill: set<Token>, head: Text)
    requires Shaped(ps, ps0, h, k, d, kill, head)
    ensures Shaped(ps[k := [ManualPageBreak] + head], ps0, h, k, d, kill, [ManualPageBreak] + head)
  {
    assert ps[k := [ManualPageBreak] + head][k + 1..] == ps[k + 1..];
  }

  // ---------------------------------------------------------------------
  // update_toc_word

  /** Which Word calls raise during one run. Sets hold the 0-based attempt
      numbers that raise; `invisibleFindFails` holds indices into
      `InvisibleChars`. */
  datatype Faults = Faults(
    unreadable: bool,            // Documents.Open or the doc.Content.Text read
    tocDeleteFails: set<nat>,    // TablesOfContents(1).Delete()
    pageBreakFindFails: bool,    // the ^m replace-all
    sectionBreakFindFails: bool, // the ^b replace-all
    invisibleFindFails: set<nat>,
    firstCollapseFails: set<nat>,
    insertBreakFails: bool,
    styledAddFails: bool,
    defaultAddFails: bool,
    finalCollapseFails: set<nat>,
    saveFails: bool)

  /** What one run did: the heading found (an index into the input), how
      many TOC fields it deleted, how many paragraphs each collapse deleted,
      whether a page break went in, and the TOC's insertion offset. */
  datatype Report = Report(anchor: Option<nat>, tocsRemoved: nat, leadingDeleted: nat,
                           pageBreak: bool, tocAt: nat, trailingDeleted: nat)

  datatype Outcome = Outcome(paras: seq<Text>, tocs: seq<TocField>, report: Report)

  /** `max_iter` of the collapse right after the cleanup. */
  const FirstCollapseLimit: nat := 50
  /** `max_iter` of the final cleanup. */
  const FinalCollapseLimit: nat := 10

  function KillOf(f: Faults): set<Token> {
    CleanupKill(f.pageBreakFindFails, f.sectionBreakFindFails, f.invisibleFindFails)
  }

  /** The heading's index after `n` leading paragraphs were deleted. */
  function Shift(anchor: Option<nat>, n: nat): Option<nat> {
    if anchor.Some? && n <= anchor.value then Some(anchor.value - n) else None
  }

  /** What the stages below need of the heading: it is a paragraph of the
      input that is not blank, as `FindAnchor` guarantees. */
  predicate ValidAnchor(ps0: seq<Text>, anchor: Option<nat>) {
    anchor.Some? ==> anchor.value < |ps0| && !IsBlank(ps0[anchor.value])
  }

  /** The heading search only picks a paragraph that is not blank. */
  lemma FindAnchorValid(ps0: seq<Text>)
    ensures ValidAnchor(ps0, FindAnchor(ps0))
  {
    if FindAnchor(ps0).Some? {
      MarkerNotBlank(ps0[FindAnchor(ps0).value]);
    }
  }

  /** The paragraphs after the four replace-alls over the cleanup region. */
  function Cleaned(ps0: seq<Text>, anchor: Option<nat>, f: Faults): (ps1: seq<Text>)
    requires ValidAnchor(ps0, anchor)
  {
    Scrub(ps0, CleanupRegionEnd(ps0, anchor), KillOf(f))
  }

  /** How many paragraphs the collapse after the cleanup deletes. */
  function LeadingDeleted(ps0: seq<Text>, anchor: Option<nat>, f: Faults): (n: nat)
    requires ValidAnchor(ps0, anchor)
    ensures n <= |ps0|
  {
    CollapseBounds(Cleaned(ps0, anchor, f), FirstCollapseLimit, f.firstCollapseFails);
    CollapseCount(Cleaned(ps0, anchor, f), FirstCollapseLimit, f.firstCollapseFails)
  }

  /** The paragraphs once the cleanup and the first collapse are done. */
  function Prepared(ps0: seq<Text>, anchor: Option<nat>, f: Faults): seq<Text>
    requires ValidAnchor(ps0, anchor)
  {
    Cleaned(ps0, anchor, f)[LeadingDeleted(ps0, anchor, f)..]
  }

  /** The heading's index in `Prepared(ps0, anchor, f)`. */
  function HeadingIn(ps0: seq<Text>, anchor: Option<nat>, f: Faults): (heading: Option<nat>)
    requires ValidAnchor(ps0, anchor)
    ensures heading.Some? <==> anchor.Some?
    ensures heading.Some? ==> heading.value < |Prepared(ps0, anchor, f)|
  {
    if anchor.Some? then HeadingAfterFirstCollapse(ps0, anchor.value, f); Shift(anchor, LeadingDeleted(ps0, anchor, f))
    else None
  }

  /** A page break is wanted when there is a heading and it does not start
      the document. */
  function NeedsBreak(heading: Option<nat>): bool {
    heading.Some? && heading.value > 0
  }

  /** `ps` after the page-break step succeeded. */
  function WithBreak(ps: seq<Text>, heading: Option<nat>): seq<Text>
    requires heading.Some? ==> heading.value < |ps|
  {
    if NeedsBreak(heading) then ps[heading.value := [ManualPageBreak] + ps[heading.value]] else ps
  }

  /** The paragraphs when the TOC goes in: after the page-break step. */
  function Placed(ps0: seq<Text>, anchor: Option<nat>, f: Faults): seq<Text>
    requires ValidAnchor(ps0, anchor)
  {
    WithBreak(Prepared(ps0, anchor, f), HeadingIn(ps0, anchor, f))
  }

  /** Where the TOC goes. */
  function TocAt(ps0: seq<Text>, anchor: Option<nat>, f: Faults): nat
    requires ValidAnchor(ps0, anchor)
  {
    TocInsertPoint(Placed(ps0, anchor, f), HeadingIn(ps0, anchor, f))
  }

  /** How many paragraphs the final cleanup deletes. Without a heading the
      new field sits at offset 0, ahead of every paragraph, and its first
      paragraph is not blank, so the final cleanup deletes nothing. */
  function TrailingDeleted(ps0: seq<Text>, anchor: Option<nat>, f: Faults): (n: nat)
    requires ValidAnchor(ps0, anchor)
    ensures n <= |Placed(ps0, anchor, f)|
    ensures anchor.None? ==> n == 0
  {
    if anchor.None? then 0
    else
      CollapseBounds(Placed(ps0, anchor, f), FinalCollapseLimit, f.finalCollapseFails);
      CollapseCount(Placed(ps0, anchor, f), FinalCollapseLimit, f.finalCollapseFails)
  }

  /** The paragraphs that are saved. */
  function Output(ps0: seq<Text>, anchor: Option<nat>, f: Faults): seq<Text>
    requires ValidAnchor(ps0, anchor)
  {
    Placed(ps0, anchor, f)[TrailingDeleted(ps0, anchor, f)..]
  }

  /** What `update_toc_word` does to a document with paragraphs `ps0` and TOC
      fields `tocs0`, step by step, as a value. */
  function UpdateTocSpec(ps0: seq<Text>, tocs0: seq<TocField>, f: Faults): Result<Outcome, Failure> {
    FindAnchorValid(ps0);
    var anchor := FindAnchor(ps0);
    if f.unreadable then Err(DocumentUnreadable)
    else if NeedsBreak(HeadingIn(ps0, anchor, f)) && f.insertBreakFails then Err(EngineError)
    else if f.styledAddFails && f.defaultAddFails then Err(EngineError)
    else if f.saveFails then Err(DocumentWriteFailed)
    else
      var removed := TocsRemoved(|tocs0|, 0, f.tocDeleteFails);
      var config := if f.styledAddFails then EngineDefault else Preferred;
      Ok(Outcome(Output(ps0, anchor, f), tocs0[removed..] + [TocField(config, TocAt(ps0, anchor, f))],
                 Report(anchor, removed, LeadingDeleted(ps0, anchor, f), NeedsBreak(HeadingIn(ps0, anchor, f)),
                        TocAt(ps0, anchor, f), TrailingDeleted(ps0, anchor, f))))
  }

  /** The first collapse stops at or before a heading that is not blank, so
      its shifted index is valid and the shape holds. */
  lemma HeadingAfterFirstCollapse(ps0: seq<Text>, h: nat, f: Faults)
    requires h < |ps0| && !IsBlank(ps0[h])
    ensures LeadingDeleted(ps0, Some(h), f) <= h
    ensures Shaped(Prepared(ps0, Some(h), f), ps0, h, h - LeadingDeleted(ps0, Some(h), f),
                   LeadingDeleted(ps0, Some(h), f), KillOf(f), ps0[h])
  {
    var ps1 := Cleaned(ps0, Some(h), f);
    var n1 := CollapseCount(ps1, FirstCollapseLimit, f.firstCollapseFails);
    ShapedAfterCleanup(ps0, h, KillOf(f));
    CollapseBounds(ps1, FirstCollapseLimit, f.firstCollapseFails);
    ShapedAfterCollapse(ps1, ps0, h, h, 0, KillOf(f), ps0[h], n1);
  }

  /** TOC stripping, the heading search, the cleanup and the first collapse
      of `update_toc_word`. */
  method PrepareDocument(doc: Document, f: Faults) returns (removed: nat, anchor: Option<nat>, n1: nat)
    modifies doc
    ensures removed == TocsRemoved(|old(doc.tocs)|, 0, f.tocDeleteFails)
    ensures doc.tocs == old(doc.tocs)[removed..]
    ensures anchor == FindAnchor(old(doc.paras)) && ValidAnchor(old(doc.paras), anchor)
    ensures n1 == LeadingDeleted(old(doc.paras), anchor, f)
    ensures doc.paras == Prepared(old(doc.paras), anchor, f)
  {
    removed := RemoveExistingTocs(doc, f.tocDeleteFails);
    anchor := FindTocHeading(doc);
    FindAnchorValid(doc.paras);
    CleanupRegionBounds(doc.paras, anchor);
    var end := CleanupRegionEnd(doc.paras, anchor);
    CleanupRegion(doc, end, f.pageBreakFindFails, f.sectionBreakFindFails, f.invisibleFindFails);
    n1 := DeleteEmptyParagraphsAtStart(doc, FirstCollapseLimit, f.firstCollapseFails);
  }

  /** `update_toc_word` from opening the document to `SaveAs`, against the
      open document `doc`. It ends exactly where `UpdateTocSpec` says; an
      unreadable document is left untouched. */
  method UpdateTocWord(doc: Document, f: Faults) returns (r: Result<Report, Failure>)
    modifies doc
    ensures var spec := UpdateTocSpec(old(doc.paras), old(doc.tocs), f);
            && (r.Err? <==> spec.Err?)
            && (r.Err? ==> r.error == spec.error)
            && (r.Ok? ==> r.value == spec.value.report && doc.paras == spec.value.paras
                          && doc.tocs == spec.value.tocs)
    ensures f.unreadable ==> doc.paras == old(doc.paras) && doc.tocs == old(doc.tocs)
  {
    if f.unreadable {
      return Err(DocumentUnreadable);
    }
    ghost var ps0 := doc.paras;
    var removed, anchor, n1 := PrepareDocument(doc, f);
    var heading := Shift(anchor, n1);
    assert heading == HeadingIn(ps0, anchor, f);
    var broke := EnsureHeadingOnOwnPage(doc, heading, f.insertBreakFails);
    if broke.Err? {
      return Err(broke.error);
    }
    var at := InsertToc(doc, heading, f.styledAddFails, f.defaultAddFails);
    if at.Err? {
      return Err(at.error);
    }
    // TablesOfContents.Update() leaves paragraphs and fields as they are.
    // Without a heading the new field went in at offset 0, so the final
    // collapse meets the field's first paragraph, which is not blank, and
    // deletes nothing.
    var n2 := 0;
    if anchor.Some? {
      n2 := DeleteEmptyParagraphsAtStart(doc, FinalCollapseLimit, f.finalCollapseFails);
    }
    if f.saveFails {
      return Err(DocumentWriteFailed);
    }
    return Ok(Report(anchor, removed, n1, broke.value, at.value, n2));
  }

  // ---------------------------------------------------------------------
  // What a run of update_toc_word guarantees

  /** Only an unreadable document, a raising `InsertBreak` (which runs only
      for a heading past offset 0), both `Add` calls raising, or a raising
      `SaveAs` abort the run; a rejected styled `Add` alone never does. */
  lemma UpdateErrors(ps0: seq<Text>, tocs0: seq<TocField>, f: Faults)
    ensures UpdateTocSpec(ps0, tocs0, f) == Err(DocumentUnreadable) <==> f.unreadable
    ensures UpdateTocSpec(ps0, tocs0, f) == Err(EngineError) ==>
              !f.unreadable && ((f.insertBreakFails && FindAnchor(ps0).Some?) || (f.styledAddFails && f.defaultAddFails))
    ensures UpdateTocSpec(ps0, tocs0, f) == Err(DocumentWriteFailed) ==> f.saveFails
    ensures UpdateTocSpec(ps0, tocs0, f).Err? ==>
              f.unreadable || f.insertBreakFails || (f.styledAddFails && f.defaultAddFails) || f.saveFails
    ensures (!f.unreadable && !f.saveFails && !(f.styledAddFails && f.defaultAddFails)
             && (FindAnchor(ps0).None? || !f.insertBreakFails)) ==> UpdateTocSpec(ps0, tocs0, f).Ok?
  {
  }

  /** The run leaves the fields it failed to delete followed by the one it
      inserted; when every delete succeeded, that one is the only TOC. */
  lemma UpdateSingleToc(ps0: seq<Text>, tocs0: seq<TocField>, f: Faults)
    requires UpdateTocSpec(ps0, tocs0, f).Ok?
    ensures var out := UpdateTocSpec(ps0, tocs0, f).value;
            && |out.tocs| == |tocs0| - out.report.tocsRemoved + 1
            && out.tocs[|out.tocs| - 1]
               == TocField(if f.styledAddFails then EngineDefault else Preferred, out.report.tocAt)
    ensures var out := UpdateTocSpec(ps0, tocs0, f).value;
            out.tocs[..|out.tocs| - 1] == tocs0[out.report.tocsRemoved..]
    ensures (forall j :: 0 <= j < |tocs0| ==> j !in f.tocDeleteFails) ==>
              |UpdateTocSpec(ps0, tocs0, f).value.tocs| == 1
  {
    AllTocsGoneIff(|tocs0|, f.tocDeleteFails);
  }

  /** A page break in front of a paragraph does not make it blank. */
  lemma BreakKeepsNonBlank(t: Text)
    requires !IsBlank(t)
    ensures !IsBlank([ManualPageBreak] + t)
  {
    var i :| 0 <= i < |t| && !IsSpace(RenderToken(t[i]));
    assert ([ManualPageBreak] + t)[i + 1] == t[i];
  }

  /** The page-break step keeps the shape, adding the break to the heading
      when it is not the first paragraph. */
  lemma ShapedWithBreak(ps: seq<Text>, ps0: seq<Text>, h: nat, k: nat, d: nat, kill: set<Token>, head: Text)
    requires Shaped(ps, ps0, h, k, d, kill, head) && !IsBlank(head)
    ensures Shaped(WithBreak(ps, Some(k)), ps0, h, k, d, kill, (if k > 0 then [ManualPageBreak] else []) + head)
    ensures !IsBlank((if k > 0 then [ManualPageBreak] else []) + head)
  {
    if k > 0 {
      ShapedAfterBreak(ps, ps0, h, k, d, kill, head);
      BreakKeepsNonBlank(head);
    } else {
      assert [] + head == head;
    }
  }

  /** `ShapedAfterCollapse` with the shifts counted from the input. */
  lemma CollapsedShape(ps: seq<Text>, ps0: seq<Text>, h: nat, d: nat, kill: set<Token>, head: Text,
                       n: nat, out: seq<Text>)
    requires d <= h && Shaped(ps, ps0, h, h - d, d, kill, head) && !IsBlank(head)
    requires n <= |ps| && (forall j :: 0 <= j < n ==> IsBlank(ps[j])) && out == ps[n..]
    ensures d + n <= h && Shaped(out, ps0, h, h - (d + n), d + n, kill, head)
  {
    ShapedAfterCollapse(ps, ps0, h, h - d, d, kill, head, n);
  }

  /** When the TOC goes in, the heading sits at its shifted index, with the
      page break when it does not start the document. */
  lemma PlacedKeepsHeading(ps0: seq<Text>, f: Faults, h: nat)
    requires h < |ps0| && !IsBlank(ps0[h])
    ensures LeadingDeleted(ps0, Some(h), f) <= h
    ensures HeadingIn(ps0, Some(h), f) == Some(h - LeadingDeleted(ps0, Some(h), f))
    ensures Shaped(Placed(ps0, Some(h), f), ps0, h, h - LeadingDeleted(ps0, Some(h), f),
                   LeadingDeleted(ps0, Some(h), f), KillOf(f),
                   (if LeadingDeleted(ps0, Some(h), f) < h then [ManualPageBreak] else []) + ps0[h])
    ensures !IsBlank((if LeadingDeleted(ps0, Some(h), f) < h then [ManualPageBreak] else []) + ps0[h])
  {
    var n1 := LeadingDeleted(ps0, Some(h), f);
    var ps := Prepared(ps0, Some(h), f);
    HeadingAfterFirstCollapse(ps0, h, f);
    ShapedWithBreak(ps, ps0, h, h - n1, n1, KillOf(f), ps0[h]);
    assert Placed(ps0, Some(h), f) == WithBreak(ps, Some(h - n1));
  }

  /** With a heading at index `h`, the saved paragraphs keep the heading
      (after a page break exactly when blank paragraphs did not bring it to
      the top) and everything after it; the paragraphs before it are the
      input's, less the deleted blank ones, with the cleaned-up tokens
      removed. */
  lemma OutputKeepsHeading(ps0: seq<Text>, f: Faults, h: nat)
    requires h < |ps0| && !IsBlank(ps0[h])
    ensures LeadingDeleted(ps0, Some(h), f) + TrailingDeleted(ps0, Some(h), f) <= h
    ensures NeedsBreak(HeadingIn(ps0, Some(h), f)) <==> LeadingDeleted(ps0, Some(h), f) < h
    ensures Shaped(Output(ps0, Some(h), f), ps0, h,
                   h - (LeadingDeleted(ps0, Some(h), f) + TrailingDeleted(ps0, Some(h), f)),
                   LeadingDeleted(ps0, Some(h), f) + TrailingDeleted(ps0, Some(h), f), KillOf(f),
                   (if LeadingDeleted(ps0, Some(h), f) < h then [ManualPageBreak] else []) + ps0[h])
  {
    var n1 := LeadingDeleted(ps0, Some(h), f);
    var ps2 := Placed(ps0, Some(h), f);
    PlacedKeepsHeading(ps0, f, h);
    CollapseBounds(ps2, FinalCollapseLimit, f.finalCollapseFails);
    CollapsedShape(ps2, ps0, h, n1, KillOf(f), (if n1 < h then [ManualPageBreak] else []) + ps0[h],
                   TrailingDeleted(ps0, Some(h), f), Output(ps0, Some(h), f));
  }

  /** With a heading the TOC goes in after the whole heading paragraph:
      at the start of the paragraph that follows the heading in the
      document as it is when the TOC goes in, past the heading's start. */
  lemma TocAfterHeading(ps0: seq<Text>, f: Faults, h: nat)
    requires h < |ps0| && !IsBlank(ps0[h])
    ensures LeadingDeleted(ps0, Some(h), f) <= h
    ensures h - LeadingDeleted(ps0, Some(h), f) < |Placed(ps0, Some(h), f)|
    ensures TocAt(ps0, Some(h), f) == ParaStart(Placed(ps0, Some(h), f), h - LeadingDeleted(ps0, Some(h), f) + 1)
    ensures ParaStart(Placed(ps0, Some(h), f), h - LeadingDeleted(ps0, Some(h), f)) < TocAt(ps0, Some(h), f)
    ensures TocAt(ps0, Some(h), f) >= |ps0[h]| + 1
  {
    var k := h - LeadingDeleted(ps0, Some(h), f);
    var ps := Placed(ps0, Some(h), f);
    PlacedKeepsHeading(ps0, f, h);
    TocInsertPointAfterHeading(ps, k);
  }

  /** Before the heading, the saved paragraphs hold no token the cleanup
      removed. */
  lemma CleanupBeforeHeading(ps0: seq<Text>, f: Faults, h: nat, j: nat, x: Token)
    requires h < |ps0| && !IsBlank(ps0[h])
    requires j + LeadingDeleted(ps0, Some(h), f) + TrailingDeleted(ps0, Some(h), f) < h
    requires x in KillOf(f)
    ensures x !in Output(ps0, Some(h), f)[j]
  {
    OutputKeepsHeading(ps0, f, h);
    FilterMembers(ps0[j + LeadingDeleted(ps0, Some(h), f) + TrailingDeleted(ps0, Some(h), f)], KillOf(f), x);
  }

  /** Without a heading no page break goes in and the TOC goes in at
      offset 0. */
  lemma PlacementWithoutHeading(ps0: seq<Text>, f: Faults)
    ensures !NeedsBreak(HeadingIn(ps0, None, f)) && TocAt(ps0, None, f) == 0
  {
  }

  /** Without a heading the saved paragraphs are the input with its first
      2000 positions cleaned, less the blank paragraphs the first collapse
      deleted; the final collapse stops at the new field. */
  lemma OutputWithoutHeading(ps0: seq<Text>, f: Faults)
    ensures Output(ps0, None, f)
            == Scrub(ps0, CleanupRegionEnd(ps0, None), KillOf(f))[LeadingDeleted(ps0, None, f)..]
  {
    var n1 := LeadingDeleted(ps0, None, f);
    var ps1 := Cleaned(ps0, None, f);
    assert Placed(ps0, None, f) == ps1[n1..];
    assert ps1[n1..][0..] == ps1[n1..];
  }

  /** Without a heading a paragraph that starts at or after offset 2000 and
      that the first collapse did not delete is saved unchanged. */
  lemma UnchangedBeyondReach(ps0: seq<Text>, f: Faults, j: nat)
    requires LeadingDeleted(ps0, None, f) <= j < |ps0|
    requires ParaStart(ps0, j) >= NoAnchorReach
    ensures Output(ps0, None, f)[j - LeadingDeleted(ps0, None, f)] == ps0[j]
  {
    OutputWithoutHeading(ps0, f);
    CleanupRegionBounds(ps0, None);
    ScrubOnlyInRegion(ps0, CleanupRegionEnd(ps0, None), KillOf(f), j);
  }
  /** Without a heading the paragraph the 2000-position cut falls in keeps
      its tail: of every paragraph the first collapse did not delete, the
      tokens before the region end are filtered and the rest is saved as it
      was. */
  lemma OutputWithoutHeadingAt(ps0: seq<Text>, f: Faults, j: nat, m: nat)
    requires LeadingDeleted(ps0, None, f) <= j < |ps0|
    requires var e := CleanupRegionEnd(ps0, None) - ParaStart(ps0, j);
             m == (if e <= 0 then 0 else if e >= |ps0[j]| then |ps0[j]| else e)
    ensures Output(ps0, None, f)[j - LeadingDeleted(ps0, None, f)]
            == Filter(ps0[j][..m], KillOf(f)) + ps0[j][m..]
  {
    OutputWithoutHeading(ps0, f);
    ScrubAt(ps0, CleanupRegionEnd(ps0, None), KillOf(f), j);
    ScrubTextSplit(ps0[j], CleanupRegionEnd(ps0, None) - ParaStart(ps0, j), KillOf(f), m);
  }


  /** The TOC placement of a run with a heading at index `h`, read off its
      report: `placed`, the paragraphs as they stand when the TOC goes in,
      hold the heading at its index less the blank paragraphs the first
      collapse deleted, the TOC goes in right after the heading there, and
      the saved paragraphs `saved` are `placed` less the first
      `trailingDeleted`. */
  predicate TocPlaced(ps0: seq<Text>, h: nat, kill: set<Token>, placed: seq<Text>, rep: Report, saved: seq<Text>)
    requires h < |ps0|
  {
    && rep.leadingDeleted <= h
    && Shaped(placed, ps0, h, h - rep.leadingDeleted, rep.leadingDeleted, kill,
              (if rep.pageBreak then [ManualPageBreak] else []) + ps0[h])
    && rep.trailingDeleted <= |placed|
    && saved == placed[rep.trailingDeleted..]
    && rep.tocAt == ParaStart(placed, h - rep.leadingDeleted + 1)
    && ParaStart(placed, h - rep.leadingDeleted) < rep.tocAt
  }

  /** A successful run with a heading at index `h`, read off its outcome:
      the heading and all that follows it are kept, the heading moves up by
      the deleted blank paragraphs, it gets a page break exactly when it does
      not reach the top, and the TOC goes in right after it in `placed`. */
  predicate KeepsHeading(ps0: seq<Text>, h: nat, kill: set<Token>, placed: seq<Text>, out: Outcome)
    requires h < |ps0|
  {
    var rep := out.report;
    var n := rep.leadingDeleted + rep.trailingDeleted;
    && n <= h
    && (rep.pageBreak <==> rep.leadingDeleted < h)
    && Shaped(out.paras, ps0, h, h - n, n, kill, (if rep.pageBreak then [ManualPageBreak] else []) + ps0[h])
    && TocPlaced(ps0, h, kill, placed, rep, out.paras)
    && rep.tocAt >= |ps0[h]| + 1
  }

  /** The stage values of a run with a heading at `h` meet `TocPlaced`. */
  lemma StagesPlaceToc(ps0: seq<Text>, f: Faults, h: nat, rep: Report, saved: seq<Text>)
    requires h < |ps0| && !IsBlank(ps0[h])
    requires saved == Output(ps0, Some(h), f)
    requires rep.leadingDeleted == LeadingDeleted(ps0, Some(h), f)
    requires rep.trailingDeleted == TrailingDeleted(ps0, Some(h), f)
    requires rep.pageBreak == NeedsBreak(HeadingIn(ps0, Some(h), f))
    requires rep.tocAt == TocAt(ps0, Some(h), f)
    ensures TocPlaced(ps0, h, KillOf(f), Placed(ps0, Some(h), f), rep, saved)
  {
    var n1 := rep.leadingDeleted;
    var ps := Placed(ps0, Some(h), f);
    PlacedKeepsHeading(ps0, f, h);
    TocAfterHeading(ps0, f, h);
    assert rep.pageBreak == (n1 < h);
  }

  /** The stage values of a run with a heading at `h` meet `KeepsHeading`. */
  lemma StagesKeepHeading(ps0: seq<Text>, f: Faults, h: nat, out: Outcome)
    requires h < |ps0| && !IsBlank(ps0[h])
    requires out.paras == Output(ps0, Some(h), f)
    requires out.report.leadingDeleted == LeadingDeleted(ps0, Some(h), f)
    requires out.report.trailingDeleted == TrailingDeleted(ps0, Some(h), f)
    requires out.report.pageBreak == NeedsBreak(HeadingIn(ps0, Some(h), f))
    requires out.report.tocAt == TocAt(ps0, Some(h), f)
    ensures KeepsHeading(ps0, h, KillOf(f), Placed(ps0, Some(h), f), out)
  {
    OutputKeepsHeading(ps0, f, h);
    TocAfterHeading(ps0, f, h);
    StagesPlaceToc(ps0, f, h, out.report, out.paras);
  }

  /** A successful run with a heading at index `h` keeps it and all that
      follows it, moves it up by the deleted blank paragraphs, puts a page
      break in front of it exactly when it does not reach the top, and puts
      the TOC after it. */
  lemma UpdateKeepsHeading(ps0: seq<Text>, tocs0: seq<TocField>, f: Faults, h: nat)
    requires UpdateTocSpec(ps0, tocs0, f).Ok? && FindAnchor(ps0) == Some(h)
    ensures && ValidAnchor(ps0, Some(h))
            && KeepsHeading(ps0, h, KillOf(f), Placed(ps0, Some(h), f), UpdateTocSpec(ps0, tocs0, f).value)
  {
    FindAnchorValid(ps0);
    StagesKeepHeading(ps0, f, h, UpdateTocSpec(ps0, tocs0, f).value);
  }

  /** A successful run without a heading puts no page break in, puts the TOC
      at offset 0, deletes nothing in the final cleanup, and saves the input
      with its first 2000 positions cleaned, less the blank paragraphs the
      first collapse deleted. */
  lemma UpdateWithoutHeading(ps0: seq<Text>, tocs0: seq<TocField>, f: Faults)
    requires UpdateTocSpec(ps0, tocs0, f).Ok? && FindAnchor(ps0).None?
    ensures var out := UpdateTocSpec(ps0, tocs0, f).value;
            && !out.report.pageBreak && out.report.tocAt == 0 && out.report.trailingDeleted == 0
            && out.paras == Scrub(ps0, CleanupRegionEnd(ps0, None), KillOf(f))[out.report.leadingDeleted..]
  {
    PlacementWithoutHeading(ps0, f);
    OutputWithoutHeading(ps0, f);
  }
}
