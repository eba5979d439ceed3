# TOC rebuild core of the Word TOC service

The service takes an uploaded `.docx`, opens it in Word and rebuilds its table
of contents. `update_toc_word` does the rebuilding in these steps:

1. It deletes the TOC fields already in the document.
2. It finds the heading that introduces the TOC. This is the first paragraph
   whose stripped, lower-cased text contains "table of contents", "toc" or
   "contents".
3. It cleans the region before that heading, or the first 2000 positions when
   there is no heading. Manual page breaks, section breaks, U+200B and U+FEFF
   are removed there.
4. It deletes blank paragraphs at the start of the document.
5. It puts the heading on a page of its own.
6. It inserts a new TOC right after the heading, and falls back to a default
   TOC when the styled one is rejected.
7. It runs a final blank-paragraph cleanup and saves.

This project models that logic in Dafny and proves its properties.

- `pytext.dfy` (module `PyText`) models the Python string operations the
  heading test uses:
  - `str.strip()`
  - `str.lower()`, for ASCII letters
  - the substring test `m in s`
- `word_model.dfy` (module `WordModel`) models the document as Word shows it
  to the code:
  - The document is a sequence of paragraph texts.
  - A text is a sequence of tokens. A token is an ordinary character, a
    manual page break (`^m`) or a section break (`^b`).
  - A paragraph's `Range.Start`/`Range.End` offsets come from the lengths of
    the paragraphs before it. Each paragraph occupies its text plus one
    paragraph mark.
  - `Scrub` models a replace-all over a range `[0, e)`.
  - The class `Document` holds `paras` and `tocs` and offers the Word calls
    the core makes: delete the first paragraph, delete the first TOC,
    replace-all, insert a page break, add a TOC.
- `toc_update.dfy` (module `TocUpdate`) models the helpers and
  `update_toc_word`.
  - The Word calls are methods of the class `Document`. The steps that
    change the document are module-level methods that take a `Document`
    and call them.
  - The searches are functions.
  - The whole run is the method `UpdateTocWord`. It is proved equal to the
    functional description `UpdateTocSpec`, which is built from one function
    per step.

The calls that can change the run's course get their outcome from a fault
schedule, the `Faults` record. These calls are:

- the `Content.Text` read (app.py:91)
- each `TablesOfContents(1).Delete()` (app.py:98)
- the four replace-alls (app.py:125-127)
- each `Range.Delete()` of both collapses (app.py:61)
- `InsertBreak` (app.py:139)
- both `TablesOfContents.Add` calls (app.py:154-163)
- `SaveAs` (app.py:176)

A boolean says whether a single call raises. For a loop, a set holds the
0-based attempt numbers that raise. A call that raises changes nothing.
Because of this, the contracts cover the error paths of these calls as well as
the normal ones. The other Word calls of the core never raise in the model;
"## Left out" lists them.

Three behaviours of the code are easy to misread, and the model follows the
code in each:

- **TOC stripping stops at the first failure.** A TOC field that cannot be
  deleted is not skipped: the `while` loop breaks on the first exception
  (app.py:96-100), and every later field stays. See `TocsRemoved` and
  `RemoveExistingTocs`.
- **Four errors are fatal.** An unreadable document and a failed `SaveAs` end
  the run. So do two more exceptions that escape `update_toc_word`: one from
  `InsertBreak` (app.py:139) and one from the fallback
  `TablesOfContents.Add` (app.py:163). The model reports both as
  `EngineError`.
- **The blank-paragraph collapse is bounded.** The code stops after `max_iter`
  deletions (50, then 10), so the result need not be a fixed point.
  `CollapseFixedPoint` states when it is one.

Several methods return values that the Python code does not return:

- the range end after a replace-all: `Document.ReplaceAll`,
  `SafeFindReplaceRange`, `RemoveInvisibleCharsInRange`
- how many TOC fields or paragraphs were deleted: `RemoveExistingTocs`,
  `DeleteEmptyParagraphsAtStart`, `PrepareDocument`
- whether a page break went in: `EnsureHeadingOnOwnPage`
- the offset the TOC went in at: `InsertToc`
- the `Report` of a successful run: `UpdateTocWord`

The model returns them so that callers can state what happened. The source
keeps this information implicitly in the document or in Word's `Range`.
`ParagraphIndexForPosition` and `FindTocHeading` return what the Python
helpers return: a 1-based index or `None`, and the heading paragraph (as its
0-based index) or `None`.

## Model

| member | source | states |
|---|---|---|
| PyText.IsSpace | app.py:108 | the characters Python's `str.strip()` removes |
| PyText.TrimStart | app.py:108 | `str.lstrip()`; its properties are in `TrimStartSpec` |
| PyText.TrimEnd | app.py:108 | `str.rstrip()`; its properties are in `TrimEndSpec` |
| PyText.Strip | app.py:108 | `str.strip()` as `rstrip` after `lstrip`; its properties are in `StripEmptyIff`, `StripSpaceCons` and `StripKeepsInner` |
| PyText.LowerChar | app.py:108 | `str.lower()` on one character, for ASCII letters |
| PyText.Contains | app.py:109 | Python's `m in s`: `m` occurs at some position of `s` |
| PyText.TrimStartSpec | app.py:108 | `lstrip` returns a suffix whose first character is not whitespace, and every character it dropped is whitespace |
| PyText.TrimEndSpec | app.py:108 | `rstrip` returns a prefix whose last character is not whitespace, and every character it dropped is whitespace |
| PyText.StripEmptyIff | app.py:59 | `s.strip() == ""` exactly when every character of `s` is whitespace |
| PyText.StripSpaceCons | app.py:108 | a leading whitespace character does not change `strip()` |
| PyText.LowerAt | app.py:108 | `lower()` maps each position on its own |
| PyText.Lower | app.py:108 | the model's ASCII-only `lower()` keeps the length |
| PyText.ContainsTransitive | app.py:109 | an occurrence inside an occurrence is an occurrence |
| PyText.ContainsNonEmpty | app.py:109 | a non-empty needle occurs only in a non-empty text |
| PyText.TrimStartKeeps | app.py:108 | an occurrence that does not start with whitespace survives `lstrip` |
| PyText.TrimEndKeeps | app.py:108 | an occurrence that does not end with whitespace survives `rstrip` |
| PyText.StripKeepsInner | app.py:108-109 | a needle with no whitespace that occurs in `s` still occurs in `s.strip()` |
| PyText.LowerKeeps | app.py:108-109 | a needle that `lower()` leaves alone still occurs after `lower()` |
| WordModel.Render | app.py:58 | `Range.Text` reads back one character per token |
| WordModel.RenderAt | app.py:58 | each token reads back as its own character, and both breaks read back as chr(12) |
| WordModel.RangeText | app.py:58 | a paragraph's `Range.Text` is its text followed by the paragraph mark |
| WordModel.IsBlank | app.py:58-59 | a paragraph whose `Range.Text` has only whitespace before its paragraph mark; `BlankIff` ties it to `strip() == ""` |
| WordModel.BlankIff | app.py:58-59 | `Range.Text.strip() == ""` exactly when every token of the paragraph reads back as whitespace |
| WordModel.StripIgnoresLeadingBreak | app.py:136-139 | a page break put in front of a paragraph does not change its stripped text |
| WordModel.Size | app.py:120 | the number of positions a run of paragraphs occupies, each paragraph its text plus its mark |
| WordModel.ParaStart | app.py:35 | `Range.Start` of a paragraph: the size of the paragraphs before it |
| WordModel.ParaEnd | app.py:35 | `Range.End` of a paragraph: its start plus its text and its mark |
| WordModel.SizeAppend | app.py:35 | offsets add up over concatenated runs of paragraphs |
| WordModel.ParaEndIsNextStart | app.py:35 | a paragraph's `Range.End` is the next paragraph's `Range.Start` |
| WordModel.EndBeforeLaterStart | app.py:35 | a paragraph ends no later than any later paragraph starts |
| WordModel.StartPositiveIff | app.py:138 | `Range.Start > 0` exactly for paragraphs after the first |
| WordModel.StartOfTail | app.py:35 | offsets without the first paragraph are shifted by its size |
| WordModel.StartOfAll | app.py:120 | the start past the last paragraph is `Content.End` |
| WordModel.Filter | app.py:45 | a replace-all by nothing never lengthens a text |
| WordModel.FilterMembers | app.py:45 | after a replace-all, a token is present exactly when it was present before and was not searched for |
| WordModel.FilterAppend | app.py:45 | a replace-all works piecewise over concatenated text |
| WordModel.FilterTwice | app.py:125-127 | two replace-alls in a row are one replace-all of both token sets |
| WordModel.FilterNothing | app.py:45 | removing nothing changes nothing |
| WordModel.ScrubText | app.py:45 | a replace-all inside one paragraph: the tokens searched for are dropped from its first `e` positions, and a region that ends at or before the paragraph leaves it alone |
| WordModel.ScrubTextShrink | app.py:45 | inside a paragraph, a replace-all over a region deletes at most the positions the region covers |
| WordModel.ScrubTextCovered | app.py:118 | a region that covers the whole paragraph text filters all of it |
| WordModel.ScrubTextSplit | app.py:45 | a region end that falls inside a paragraph splits it: the tokens the region covers are filtered and the rest is kept unchanged |
| WordModel.ScrubTextNothing | app.py:45 | removing nothing changes no paragraph |
| WordModel.ScrubTextCompose | app.py:125-127 | within one paragraph, two replace-alls over the same shrinking range equal one replace-all of both token sets |
| WordModel.ScrubTextComposeStep | app.py:125-127 | the inductive step of the claim above |
| WordModel.Scrub | app.py:45 | a replace-all never adds or removes a paragraph |
| WordModel.ScrubAt | app.py:45 | paragraph by paragraph, a replace-all over `[0, e)` filters only the positions before `e` |
| WordModel.ScrubCons | app.py:45 | a replace-all unfolds over the first paragraph |
| WordModel.Removed | app.py:45 | the number of positions a replace-all over `[0, e)` deletes, paragraph by paragraph; `ScrubShrink` bounds it and ties it to the size change |
| WordModel.ScrubShrink | app.py:45 | a replace-all over `[0, e)` deletes at most `e` positions, and the document shrinks by exactly what it deletes |
| WordModel.ScrubComposeRemoved | app.py:125-127 | a second replace-all over the range pulled back by the first one's deletions acts as one replace-all of both token sets |
| WordModel.ScrubCompose | app.py:125-127 | the same, stated with the document's size before and after |
| WordModel.ScrubNothing | app.py:46-47 | a replace-all that raised leaves the document as it was |
| WordModel.ScrubBeforeParagraph | app.py:116-127 | with the region ending at a paragraph's start, every earlier paragraph is fully filtered, and that paragraph and every later one are untouched |
| WordModel.ScrubOnlyInRegion | app.py:116-127 | a paragraph starting at or after the region end is untouched, and one ending before it is fully filtered |
| WordModel.Document.constructor | app.py:80-87 | the opened document holds the given paragraphs and TOC fields |
| WordModel.Document.DeleteFirstParagraph | app.py:61 | `Paragraphs(1).Range.Delete()` removes the first paragraph and nothing else |
| WordModel.Document.DeleteFirstToc | app.py:98 | `TablesOfContents(1).Delete()` removes the first TOC field and nothing else |
| WordModel.Document.ReplaceAll | app.py:45 | a replace-all of one token over `[0, end)`, and the range end pulled back by the positions deleted |
| WordModel.Document.InsertPageBreakBefore | app.py:136-139 | a page break goes in at the start of the paragraph, and nothing else changes |
| WordModel.Document.AddToc | app.py:154-163 | `TablesOfContents.Add` appends one field with its configuration and offset, and the paragraphs do not change |
| TocUpdate.FirstCovering | app.py:33-36 | the first paragraph at or after `i` whose `[Start, End]` contains `pos`, with none before it; `None` when no paragraph does |
| TocUpdate.ParagraphIndexFor | app.py:32-39 | `None` exactly for a document without paragraphs; otherwise a 1-based index, either of the first paragraph whose range contains `pos` or 1 when none does |
| TocUpdate.ParagraphIndexForPosition | app.py:32-39 | the loop over paragraphs with a running start offset returns exactly `ParagraphIndexFor` |
| TocUpdate.BoundaryPicksEarlier | app.py:35 | a position where one paragraph ends and the next starts is reported as the earlier paragraph |
| TocUpdate.InRangeIsCovered | app.py:35-39 | every offset in `[0, Content.End]` lies in the paragraph reported, so the fallback 1 is only returned for offsets outside the document |
| TocUpdate.CoveringWitness | app.py:35 | some paragraph from `i` on covers any offset between paragraph `i`'s start and the document end |
| TocUpdate.Covers | app.py:35 | the test `Range.Start <= pos <= Range.End` on one paragraph, both ends included |
| TocUpdate.HeadingText | app.py:108 | `para.Range.Text.strip().lower()` of one paragraph |
| TocUpdate.HasMarker | app.py:109 | `any(k in text for k in search_texts)` over the three markers, in the source's order |
| TocUpdate.IsMarker | app.py:108-109 | a paragraph is a heading when its stripped, lower-cased text holds a marker |
| TocUpdate.AnchorFrom | app.py:106-113 | the first paragraph at or after `i` that is a heading, with none before it; `None` when none is |
| TocUpdate.FindAnchor | app.py:103-113 | the first paragraph whose stripped, lower-cased text contains one of the three markers, with no earlier paragraph doing so; `None` exactly when no paragraph does |
| TocUpdate.FindTocHeading | app.py:103-113 | the loop over paragraphs returns exactly `FindAnchor` |
| TocUpdate.MarkerNotBlank | app.py:108-109 | a heading paragraph is never blank |
| TocUpdate.MarkerIgnoresLeadingBreak | app.py:135-139 | a page break in front of a paragraph does not change whether it is a heading |
| TocUpdate.FullMarkerImpliesContents | app.py:104 | any text holding "table of contents" also holds "contents" |
| TocUpdate.SubstringIsMarker | app.py:108-109 | the marker test is an unscoped substring test: a paragraph whose text contains "toc" anywhere is a heading |
| TocUpdate.ProtocolIsMarker | app.py:108-109 | a paragraph reading "Protocol" is taken for the TOC heading |
| TocUpdate.TocsRemoved | app.py:96-100 | the deletions stop at the first failed attempt: no attempt before the count failed, and the count is either all fields or a failed attempt |
| TocUpdate.RemoveExistingTocs | app.py:96-100 | the stripping loop removes exactly the first `TocsRemoved` fields and leaves the paragraphs alone |
| TocUpdate.AllTocsGoneIff | app.py:96-100 | every field is removed exactly when no attempt failed |
| TocUpdate.CleanupRegionEnd | app.py:116-122 | the end of `clean_range`: the heading's `Range.Start`, or `min(2000, Content.End)` without a heading; its bounds are in `CleanupRegionBounds` |
| TocUpdate.CleanupRegionBounds | app.py:116-122 | the region never passes the document end; with a heading it stops before the heading's first character and is non-empty exactly when the heading is not first; without a heading it is at most 2000 and exactly 2000 in a document at least that long |
| TocUpdate.SafeFindReplaceRange | app.py:41-47 | a replace-all of the token over the range, or no change at all when it raises; returns the pulled-back range end |
| TocUpdate.InvisibleKill | app.py:49-52 | the invisible characters removed are exactly those whose replace-all did not raise |
| TocUpdate.RemoveInvisibleCharsInRange | app.py:49-52 | the two guarded replace-alls over the shrinking range act as one replace-all of the characters whose call did not raise |
| TocUpdate.CleanupKillAll | app.py:124-127 | with no failures, the cleanup removes exactly both break kinds, U+200B and U+FEFF |
| TocUpdate.CleanupRegion | app.py:124-127 | the four replace-alls over one range act as one replace-all, over the original region, of the token kinds whose call did not raise |
| TocUpdate.CollapseFrom | app.py:54-66 | the number of deletions: at most `max_iter`, all blank first paragraphs whose delete did not raise, and it stops only at the ceiling, at an empty document, at a paragraph that is not blank, or at a raising delete |
| TocUpdate.CollapseCount | app.py:54-66 | the number of paragraphs `_delete_empty_paragraphs_at_start` deletes; its properties are in `CollapseFrom` and `CollapseBounds` |
| TocUpdate.DeleteEmptyParagraphsAtStart | app.py:54-66 | the loop deletes exactly the first `CollapseCount` paragraphs and leaves the TOC fields alone |
| TocUpdate.CollapseBounds | app.py:56-64 | at most `max_iter` paragraphs are deleted, and only blank ones from the front |
| TocUpdate.CollapseStopsAtNonBlank | app.py:56-66 | the collapse never passes a paragraph that is not blank |
| TocUpdate.CollapseFixedPoint | app.py:56-66 | a collapse that stopped below its ceiling, and not on a raising delete, leaves nothing for a second collapse |
| TocUpdate.EnsureHeadingOnOwnPage | app.py:135-139 | a page break goes in front of the heading exactly when there is one and its start is past 0; an `InsertBreak` that raises aborts with `EngineError`; otherwise nothing changes |
| TocUpdate.TocInsertPoint | app.py:144-150 | the offset of `toc_insert_range`: the heading's `Range.End`, or 0 without a heading; `TocInsertPointAfterHeading` places it |
| TocUpdate.TocInsertPointAfterHeading | app.py:144-147 | with a heading, the TOC goes in where the next paragraph starts: after the heading, within the document |
| TocUpdate.InsertToc | app.py:144-163 | the styled TOC goes in at the insertion point; if it raises, a default TOC goes in at the same point; only when both raise is the result `EngineError`, with no field added |
| TocUpdate.Shaped | app.py:116-139 | a document whose heading sits at index `k`, preceded by the input's paragraphs from `d` on with the cleaned-up tokens removed, and followed by the input's paragraphs after the heading |
| TocUpdate.ShapedAfterCleanup | app.py:116-127 | the cleanup up to the heading filters every earlier paragraph and leaves the heading and all later paragraphs as they were |
| TocUpdate.ShapedAfterCollapse | app.py:129-130 | deleting blank leading paragraphs never reaches a heading that is not blank, and keeps the rest |
| TocUpdate.ShapedAfterBreak | app.py:139 | the page break changes the heading paragraph only |
| TocUpdate.KillIf | app.py:41-47 | one guarded replace-all removes its token, or nothing when the call raises and the exception is swallowed |
| TocUpdate.CleanupKill | app.py:124-127 | the token kinds the four cleanup calls remove: each break kind whose call did not raise, and the invisible characters whose call did not raise |
| TocUpdate.KillOf | app.py:124-127 | the token kinds the cleanup removes: those whose replace-all did not raise |
| TocUpdate.ValidAnchor | app.py:103-113 | an anchor the heading search can return: a paragraph of the document that is not blank |
| TocUpdate.FindAnchorValid | app.py:103-113 | the heading found is a paragraph of the document that is not blank |
| TocUpdate.Cleaned | app.py:115-127 | the paragraphs after the cleanup: one replace-all over `[0, CleanupRegionEnd)` of the token kinds in `KillOf` |
| TocUpdate.Prepared | app.py:129-130 | the cleaned paragraphs less the blank ones the first collapse deleted |
| TocUpdate.LeadingDeleted | app.py:130 | the first collapse deletes at most every paragraph |
| TocUpdate.Shift | app.py:130-138 | `toc_heading_para` keeps pointing at its paragraph while blank paragraphs before it are deleted: its index drops by the number deleted, and it is lost only if its own paragraph was deleted |
| TocUpdate.HeadingIn | app.py:130-139 | after the first collapse, the heading still exists exactly when it was found, at a valid index |
| TocUpdate.NeedsBreak | app.py:135-138 | a page break goes in when there is a heading and its `Range.Start` is past 0, which is when it is not the first paragraph |
| TocUpdate.WithBreak | app.py:135-139 | the paragraphs after the page-break step |
| TocUpdate.Placed | app.py:135-139 | the paragraphs as they stand when the TOC goes in |
| TocUpdate.TocAt | app.py:144-150 | the TOC offset in those paragraphs; `TocAfterHeading` and `PlacementWithoutHeading` place it |
| TocUpdate.TrailingDeleted | app.py:144-173 | the final collapse deletes at most every paragraph, and nothing without a heading, where the new field at offset 0 is the first thing it meets |
| TocUpdate.Output | app.py:172-173 | the saved paragraphs: those the TOC went into, less the blank ones the final collapse deleted |
| TocUpdate.UpdateTocSpec | app.py:71-176 | the whole run as one function: the error it ends with, or the saved paragraphs, the TOC fields and the report; `UpdateErrors`, `UpdateSingleToc`, `UpdateKeepsHeading` and `UpdateWithoutHeading` state its properties |
| TocUpdate.HeadingAfterFirstCollapse | app.py:116-130 | the first collapse stops at or before the heading, which keeps its text and everything after it |
| TocUpdate.PrepareDocument | app.py:95-130 | stripping, heading search, cleanup and first collapse end in the state the step functions describe |
| TocUpdate.UpdateTocWord | app.py:71-176 | the whole run fails or succeeds exactly as `UpdateTocSpec` says, with the same error, report, paragraphs and TOC fields; an unreadable document is left untouched |
| TocUpdate.UpdateErrors | app.py:89-176 | only an unreadable document, a raising `InsertBreak` with a heading, both `Add` calls raising, or a raising `SaveAs` abort the run; a rejected styled `Add` alone never does |
| TocUpdate.UpdateSingleToc | app.py:95-163 | a successful run keeps exactly the fields from the first failed deletion on, in their order, followed by the new one, which has the configuration that was accepted and the TOC offset; when every deletion succeeded the new TOC is the only one |
| TocUpdate.BreakKeepsNonBlank | app.py:139 | a page break in front of a paragraph does not make it blank |
| TocUpdate.ShapedWithBreak | app.py:135-139 | the page-break step adds the break to the heading exactly when the heading is not first, and keeps it non-blank |
| TocUpdate.PlacedKeepsHeading | app.py:116-139 | when the TOC goes in, the heading sits at its index shifted by the deleted blank paragraphs, with a page break exactly when it is not first |
| TocUpdate.OutputKeepsHeading | app.py:116-173 | the saved paragraphs keep the heading and everything after it; before it they are the input's paragraphs, less the deleted blank ones, with the cleaned-up tokens removed; a break precedes the heading exactly when the first collapse did not bring it to the top |
| TocUpdate.TocAfterHeading | app.py:144-147 | with a heading, the TOC goes in at the start of the paragraph after the heading, as the paragraphs stand when it goes in, and so past the heading's start and past the whole heading text |
| TocUpdate.CleanupBeforeHeading | app.py:124-127 | before the heading, the saved paragraphs hold none of the token kinds whose replace-all did not raise |
| TocUpdate.PlacementWithoutHeading | app.py:135-150 | without a heading, no page break goes in and the TOC goes in at offset 0 |
| TocUpdate.OutputWithoutHeading | app.py:115-173 | without a heading, the saved paragraphs are the input with its first `min(2000, End)` positions cleaned, less the blank paragraphs the first collapse deleted |
| TocUpdate.UnchangedBeyondReach | app.py:115-173 | without a heading, a paragraph starting at or after offset 2000 that the first collapse did not delete is saved unchanged |
| TocUpdate.OutputWithoutHeadingAt | app.py:115-173 | without a heading, every paragraph the first collapse did not delete is saved with its tokens before the region end filtered and the rest unchanged, including the paragraph that the 2000-position cut falls in |
| TocUpdate.TocPlaced | app.py:144-173 | read off a report: when the TOC goes in, the heading sits at its index less the first collapse's deletions, the TOC offset is the start of the paragraph after it, and the saved paragraphs are those paragraphs less the final collapse's deletions |
| TocUpdate.KeepsHeading | app.py:116-173 | read off an outcome: the heading and all after it are kept, moved up by the deleted blank paragraphs, with a page break exactly when it did not reach the top, and `TocPlaced` holds |
| TocUpdate.StagesPlaceToc | app.py:135-173 | the step values of a run with a heading satisfy `TocPlaced` |
| TocUpdate.StagesKeepHeading | app.py:116-173 | the step values of a run with a heading satisfy `KeepsHeading` |
| TocUpdate.UpdateKeepsHeading | app.py:103-176 | a successful run with a heading keeps the heading and all after it, moves it up by the deleted blank paragraphs, gives it a page break exactly when it did not reach the top, inserts the TOC at the start of the paragraph after the heading in the document as it stood then, and saves that document less the paragraphs the final collapse deleted |
| TocUpdate.UpdateWithoutHeading | app.py:103-176 | a successful run without a heading inserts no page break, puts the TOC at offset 0, deletes nothing in the final collapse, and saves the cleaned input less the blank paragraphs the first collapse deleted |

## Left out

- The Flask route, upload saving, file naming and `send_file` are left out (app.py:194-221). They are transport and file I/O.
- The `taskkill` at start-up and the COM session are left out (app.py:14-17, 72-87, 178-189). The session covers `CoInitialize`, `Dispatch`, `Documents.Open`, `Close`, `Quit` and `CoUninitialize`. This is process and engine management. The effect of opening the document and reading `Content.Text` is only the `unreadable` fault, which aborts the run with `DocumentUnreadable`.
- `SaveAs` is left out (app.py:176). Only its failure is modelled, as `DocumentWriteFailed`.
- The `cleanup_old_files` thread is left out (app.py:226-238). It is time-based, concurrent and filesystem work.
- `TablesOfContents.Update` is left out (app.py:166-170). TOC entries and page numbers come from Word's layout engine. The loop catches every exception, so it never changes paragraphs or fields in the model.
- The `continue` on an exception while reading a paragraph's text is not modelled (app.py:37-38, 112-113). Reading `Range.Start`, `Range.End` or `Range.Text` never fails in the model. The `except` branch that recomputes the cleanup region is not modelled for the same reason (app.py:121-122).
- Word's `Find` wildcard language is modelled only for the four codes the core searches for. `^m`, `^b`, U+200B and U+FEFF become tokens that a replace-all removes. Word shrinking the range as text inside it is deleted is modelled: the second and later replace-alls run over the shrunk range.
- `InsertBreak(7)` is modelled as a page-break token at the start of the heading paragraph. The extra paragraph Word may create and any layout effects are not modelled.
- A TOC field's own paragraphs are not modelled. The field is kept in the separate `tocs` list with its insertion offset. With a heading the field follows the heading, which is not blank, so the final collapse stops before it either way. Without a heading the field goes in at offset 0 and its first paragraph is the first the final collapse meets. The model takes that paragraph to be not blank, since Word fills a TOC with its entries or with a "no entries" line, so `TrailingDeleted` is 0 and `UpdateTocWord` skips the final collapse in that case.
- Word's undeletable final paragraph mark is not modelled. A blank document can be collapsed to zero paragraphs in the model.
- `PyText.Lower`, `PyText.LowerChar`: `str.lower()` is modelled for ASCII letters only. The only non-ASCII characters that Python lowers to ASCII letters are `İ` (to `i` plus a combining dot) and the Kelvin sign (to `k`). Neither `i` nor `k` occurs in any marker, so the heading test gives Python's answer for every text. Python's `lower()` can lengthen a string (`'İ'.lower()` has length 2); the model's keeps the length.
- `or ""` (app.py:58) is left out. `Range.Text` always ends in the paragraph mark, so it is never empty.
- Some Word calls of the core never raise in the model. These are `TablesOfContents.Count` and `Paragraphs.Count` (app.py:39, 56, 96), `Range.Duplicate` and `Range.Collapse` (app.py:136-137, 146-147, 150), `Content.End` and `doc.Range` (app.py:118-122, 149), and the reads of `Range.Start`, `Range.End` and `Range.Text` (app.py:35, 58, 108, 118, 138). In the source an exception from a call outside any `try` escapes `update_toc_word`, and one inside a `try` is skipped; the model has no fault for either.
- `Document.AddToc`: the new field is appended after the fields already in `tocs`, whatever its offset. `tocs` is therefore not `TablesOfContents` in document order, and `UpdateSingleToc`'s "the new field comes last" is about the model's list, not about Word's collection. Field offsets are also not moved when later edits delete paragraphs before them.
- `WordModel.Scrub`, `WordModel.ScrubText`, `TocUpdate.ShapedAfterCleanup`: a section break is modelled as a token inside a paragraph. In Word a section break also ends its paragraph, and `Range.Text` of that paragraph ends in chr(12). Removing `^b` can therefore merge two paragraphs, possibly into the heading paragraph. The model keeps the paragraph count on every replace-all, and `ShapedAfterCleanup` keeps the heading's text unchanged.
- `WordModel.ScrubText`, `TocUpdate.CleanupRegionBounds`: when the heading is the first paragraph, `clean_range` is `doc.Range(0, 0)`, which is collapsed. Word's `Find` on a collapsed range may search forward from that point through the rest of the document. The model treats an empty region as a replace-all that changes nothing, so the cleanup leaves every paragraph alone in that case. Which of the two Word does depends on Word's `Find` settings, which the source does not set.
- `UpdateTocWord`'s fault schedule is fixed before the run. Errors that depend on Word's internal state are represented only by which calls raise.
