/** An abstract Word document as the TOC core sees it: an ordered sequence of
    paragraph texts whose character offsets are derived from the lengths of
    the paragraphs before them, plus the collection of table-of-contents
    fields. The class `Document` offers the handful of Word object-model
    operations the core calls. */
module WordModel {
  import opened PyText

  /** One character position of a paragraph's text. Word's `^m` (manual page
      break) and `^b` (section break) are kept apart from ordinary characters
      because the cleanup searches for them by code, not by character. */
  datatype Token = Ch(c: char) | ManualPageBreak | SectionBreak

  /** The text of one paragraph, without its closing paragraph mark. */
  type Text = seq<Token>

  /** Both break kinds read back as chr(12) through `Range.Text`. */
  const FormFeed: char := '\U{0C}'
  /** Every paragraph range ends in a paragraph mark, `\r`. */
  const ParagraphMark: char := '\r'

  function RenderToken(t: Token): char {
    match t
    case Ch(c) => c
    case ManualPageBreak => FormFeed
    case SectionBreak => FormFeed
  }

  /** The characters `Range.Text` reads back for a run of tokens. */
  function Render(t: Text): (s: string)
    ensures |s| == |t|
  {
    if t == [] then [] else [RenderToken(t[0])] + Render(t[1..])
  }

  lemma {:induction false} RenderAt(t: Text, i: nat)
    requires i < |t|
    ensures Render(t)[i] == RenderToken(t[i])
  {
    if i > 0 {
      RenderAt(t[1..], i - 1);
    }
  }

  /** `paragraph.Range.Text`: the rendered text followed by the paragraph mark. */
  function RangeText(t: Text): (s: string)
    ensures |s| == |t| + 1 && s[|t|] == ParagraphMark
  {
    Render(t) + [ParagraphMark]
  }

  /** A blank paragraph: each of its tokens reads back as whitespace (both
      break kinds do; U+200B and U+FEFF do not). */
  predicate IsBlank(t: Text) {
    forall i :: 0 <= i < |t| ==> IsSpace(RenderToken(t[i]))
  }

  /** `Range.Text.strip() == ""` holds exactly for the blank paragraphs. */
  lemma BlankIff(t: Text)
    ensures Strip(RangeText(t)) == [] <==> IsBlank(t)
  {
    var s := RangeText(t);
    StripEmptyIff(s);
    if forall i :: 0 <= i < |t| ==> IsSpace(RenderToken(t[i])) {
      forall i | 0 <= i < |s| ensures IsSpace(s[i]) {
        if i < |t| {
          RenderAt(t, i);
          assert s[i] == Render(t)[i];
        }
      }
    } else {
      var i :| 0 <= i < |t| && !IsSpace(RenderToken(t[i]));
      RenderAt(t, i);
      assert s[i] == Render(t)[i];
    }
  }

  /** A page break put in front of a paragraph does not change its stripped
      text. */
  lemma StripIgnoresLeadingBreak(t: Text)
    ensures Strip(RangeText([ManualPageBreak] + t)) == Strip(RangeText(t))
  {
    assert ([ManualPageBreak] + t)[1..] == t;
    assert RangeText([ManualPageBreak] + t) == [FormFeed] + RangeText(t);
    StripSpaceCons(FormFeed, RangeText(t));
  }

  // ---------------------------------------------------------------------
  // Offsets

  /** Number of character positions a run of paragraphs occupies: each
      paragraph's text plus its paragraph mark. */
  function Size(ps: seq<Text>): nat {
    if ps == [] then 0 else |ps[0]| + 1 + Size(ps[1..])
  }

  lemma {:induction false} SizeAppend(a: seq<Text>, b: seq<Text>)
    ensures Size(a + b) == Size(a) + Size(b)
  {
    if a == [] {
      assert a + b == b;
    } else {
      assert (a + b)[1..] == a[1..] + b;
      SizeAppend(a[1..], b);
    }
  }

  /** `Paragraphs(i + 1).Range.Start` */
  function ParaStart(ps: seq<Text>, i: nat): nat
    requires i <= |ps|
  {
    Size(ps[..i])
  }

  /** `Paragraphs(i + 1).Range.End`: just past the paragraph mark. */
  function ParaEnd(ps: seq<Text>, i: nat): nat
    requires i < |ps|
  {
    ParaStart(ps, i) + |ps[i]| + 1
  }

  /** Consecutive paragraphs touch: one ends where the next starts. */
  lemma ParaEndIsNextStart(ps: seq<Text>, i: nat)
    requires i < |ps|
    ensures ParaEnd(ps, i) == ParaStart(ps, i + 1)
  {
    assert ps[..i + 1] == ps[..i] + [ps[i]];
    SizeAppend(ps[..i], [ps[i]]);
  }

  /** A paragraph ends no later than any later paragraph starts. */
  lemma EndBeforeLaterStart(ps: seq<Text>, i: nat, j: nat)
    requires i < j <= |ps|
    ensures ParaEnd(ps, i) <= ParaStart(ps, j)
  {
    assert ps[..j] == ps[..i + 1] + ps[i + 1..j];
    SizeAppend(ps[..i + 1], ps[i + 1..j]);
    ParaEndIsNextStart(ps, i);
  }

  /** Only the first paragraph starts at offset 0. */
  lemma StartPositiveIff(ps: seq<Text>, i: nat)
    requires i <= |ps|
    ensures ParaStart(ps, i) > 0 <==> i > 0
  {
    if i > 0 {
      EndBeforeLaterStart(ps, 0, i);
    } else {
      assert ps[..i] == [];
    }
  }

  /** Offsets in a document relate to offsets in the same document without
      its first paragraph. */
  lemma StartOfTail(ps: seq<Text>, j: nat)
    requires 0 < |ps| && j < |ps|
    ensures ParaStart(ps, j + 1) == |ps[0]| + 1 + ParaStart(ps[1..], j)
  {
    assert ps[..j + 1] == [ps[0]] + ps[1..][..j];
    SizeAppend([ps[0]], ps[1..][..j]);
  }

  lemma StartOfAll(ps: seq<Text>)
    ensures ParaStart(ps, |ps|) == Size(ps)
  {
    assert ps[..|ps|] == ps;
  }

  // ---------------------------------------------------------------------
  // Replace-all inside a region

  /** The text with every token of `kill` replaced by nothing. */
  function Filter(t: Text, kill: set<Token>): (r: Text)
    ensures |r| <= |t|
  {
    if t == [] then []
    else (if t[0] in kill then [] else [t[0]]) + Filter(t[1..], kill)
  }

  /** A replace-all keeps exactly the tokens it was not asked to remove. */
  lemma {:induction false} FilterMembers(t: Text, kill: set<Token>, x: Token)
    ensures x in Filter(t, kill) <==> x in t && x !in kill
  {
    if t != [] {
      FilterMembers(t[1..], kill, x);
      assert t == [t[0]] + t[1..];
    }
  }

  lemma {:induction false} FilterAppend(a: Text, b: Text, kill: set<Token>)
    ensures Filter(a + b, kill) == Filter(a, kill) + Filter(b, kill)
  {
    if a == [] {
      assert a + b == b;
    } else {
      assert (a + b)[1..] == a[1..] + b;
      FilterAppend(a[1..], b, kill);
    }
  }

  /** Two replace-alls in a row are one replace-all of both token sets. */
  lemma {:induction false} FilterTwice(t: Text, a: set<Token>, b: set<Token>)
    ensures Filter(Filter(t, a), b) == Filter(t, a + b)
  {
    if t != [] {
      var head := if t[0] in a then [] else [t[0]];
      FilterAppend(head, Filter(t[1..], a), b);
      FilterTwice(t[1..], a, b);
      if head != [] {
        assert head[1..] == [];
      }
    }
  }

  lemma {:induction false} FilterNothing(t: Text)
    ensures Filter(t, {}) == t
  {
    if t != [] {
      FilterNothing(t[1..]);
    }
  }

  /** A paragraph after a replace-all over a region that ends `e` positions
      after the paragraph's start: the tokens of `kill` among its first `e`
      positions are gone, the rest is as it was. */
  function ScrubText(p: Text, e: int, kill: set<Token>): (r: Text)
  {
    if p == [] || e <= 0 then p
    else (if p[0] in kill then [] else [p[0]]) + ScrubText(p[1..], e - 1, kill)
  }

  /** A replace-all never adds positions and deletes at most the `e` it may
      reach. */
  lemma {:induction false} ScrubTextShrink(p: Text, e: int, kill: set<Token>)
    ensures |ScrubText(p, e, kill)| <= |p|
    ensures |p| - |ScrubText(p, e, kill)| <= if e <= 0 then 0 else e
  {
    if p != [] && e > 0 {
      ScrubTextShrink(p[1..], e - 1, kill);
    }
  }

  /** A region that covers the whole paragraph text filters all of it. */
  lemma {:induction false} ScrubTextCovered(p: Text, e: int, kill: set<Token>)
    requires e >= |p|
    ensures ScrubText(p, e, kill) == Filter(p, kill)
  {
    if p != [] {
      ScrubTextCovered(p[1..], e - 1, kill);
    }
  }

  /** A paragraph the region end cuts: its first `m` tokens, those the
      region covers, are filtered, and the rest of it is kept as it was. */
  lemma {:induction false} ScrubTextSplit(p: Text, e: int, kill: set<Token>, m: nat)
    requires m == (if e <= 0 then 0 else if e >= |p| then |p| else e)
    ensures ScrubText(p, e, kill) == Filter(p[..m], kill) + p[m..]
  {
    if p == [] || e <= 0 {
      assert p[..m] == [] && p[m..] == p;
    } else {
      ScrubTextSplit(p[1..], e - 1, kill, m - 1);
      assert p[..m][1..] == p[1..][..m - 1];
      assert p[m..] == p[1..][m - 1..];
    }
  }

  lemma {:induction false} ScrubTextNothing(p: Text, e: int)
    ensures ScrubText(p, e, {}) == p
  {
    if p != [] && e > 0 {
      ScrubTextNothing(p[1..], e - 1);
      assert p == [p[0]] + p[1..];
    }
  }

  /** Two replace-alls over the same shrinking region of one paragraph act
      as one replace-all of both token sets. `extra` is what the same range
      lost in later paragraphs, which the region end also gives back. */
  lemma {:induction false} ScrubTextCompose(p: Text, e: int, a: set<Token>, b: set<Token>, extra: int)
    requires 0 <= extra <= if e - |p| - 1 <= 0 then 0 else e - |p| - 1
    ensures ScrubText(ScrubText(p, e, a), e - (|p| - |ScrubText(p, e, a)|) - extra, b)
            == ScrubText(p, e, a + b)
  {
    if p == [] {
    } else if e <= 0 {
      assert ScrubText(p, e, a) == p;
    } else {
      ScrubTextShrink(p[1..], e - 1, a);
      ScrubTextCompose(p[1..], e - 1, a, b, extra);
      ScrubTextComposeStep(p, e, a, b, extra);
    }
  }

  /** The inductive step of `ScrubTextCompose`: the claim for `p` follows
      from the claim for its tail. */
  lemma ScrubTextComposeStep(p: Text, e: int, a: set<Token>, b: set<Token>, extra: int)
    requires p != [] && e > 0
    requires 0 <= extra <= if e - |p| - 1 <= 0 then 0 else e - |p| - 1
    requires |ScrubText(p[1..], e - 1, a)| <= |p[1..]|
    requires |p[1..]| - |ScrubText(p[1..], e - 1, a)| <= e - 1
    requires ScrubText(ScrubText(p[1..], e - 1, a), e - 1 - (|p[1..]| - |ScrubText(p[1..], e - 1, a)|) - extra, b)
             == ScrubText(p[1..], e - 1, a + b)
    ensures ScrubText(ScrubText(p, e, a), e - (|p| - |ScrubText(p, e, a)|) - extra, b)
            == ScrubText(p, e, a + b)
  {
    var x, rest := p[0], p[1..];
    var q' := ScrubText(rest, e - 1, a);
    if x in a {
      assert ScrubText(p, e, a) == q';
    } else {
      var q := [x] + q';
      assert ScrubText(p, e, a) == q;
      var e' := e - (|p| - |q|) - extra;
      assert e' > 0;
      assert q[0] == x && q[1..] == q';
      assert ScrubText(q, e', b) == (if x in b then [] else [x]) + ScrubText(q', e' - 1, b);
    }
  }

  /** The document after `Range(0, e).Find.Execute(..., Replace=wdReplaceAll)`
      for each token of `kill`: those tokens disappear from the positions
      before `e`; paragraph marks and everything at or after `e` stay. */
  function Scrub(ps: seq<Text>, e: int, kill: set<Token>): (r: seq<Text>)
    ensures |r| == |ps|
  {
    if ps == [] then []
    else [ScrubText(ps[0], e, kill)] + Scrub(ps[1..], e - |ps[0]| - 1, kill)
  }

  /** Paragraph by paragraph, the scrub is a `ScrubText` relative to the
      paragraph's own start. */
  lemma {:induction false} ScrubAt(ps: seq<Text>, e: int, kill: set<Token>, j: nat)
    requires j < |ps|
    ensures Scrub(ps, e, kill)[j] == ScrubText(ps[j], e - ParaStart(ps, j), kill)
  {
    if j == 0 {
      assert ps[..0] == [];
    } else {
      ScrubAt(ps[1..], e - |ps[0]| - 1, kill, j - 1);
      StartOfTail(ps, j - 1);
    }
  }

  lemma ScrubCons(x: Text, rest: seq<Text>, e: int, kill: set<Token>)
    ensures Scrub([x] + rest, e, kill) == [ScrubText(x, e, kill)] + Scrub(rest, e - |x| - 1, kill)
    ensures Size([x] + rest) == |x| + 1 + Size(rest)
  {
    assert ([x] + rest)[0] == x && ([x] + rest)[1..] == rest;
  }

  /** The number of positions a replace-all over `[0, e)` deletes. */
  function Removed(ps: seq<Text>, e: int, kill: set<Token>): int {
    if ps == [] then 0
    else (|ps[0]| - |ScrubText(ps[0], e, kill)|) + Removed(ps[1..], e - |ps[0]| - 1, kill)
  }

  /** A replace-all over a region `[0, e)` removes at most `e` positions, and
      what it removes is what the document shrinks by. */
  lemma {:induction false} ScrubShrink(ps: seq<Text>, e: int, kill: set<Token>)
    ensures Removed(ps, e, kill) == Size(ps) - Size(Scrub(ps, e, kill))
    ensures 0 <= Removed(ps, e, kill) <= if e <= 0 then 0 else e
  {
    if ps != [] {
      ScrubTextShrink(ps[0], e, kill);
      ScrubShrink(ps[1..], e - |ps[0]| - 1, kill);
      ScrubCons(ScrubText(ps[0], e, kill), Scrub(ps[1..], e - |ps[0]| - 1, kill), e, kill);
    }
  }

  /** Word shrinks a range as text inside it is deleted, so a second
      replace-all on the same range covers exactly what is left of the first
      one's region: two successive replace-alls act as one replace-all of
      both token sets. */
  lemma ScrubCompose(ps: seq<Text>, e: int, a: set<Token>, b: set<Token>)
    ensures Scrub(Scrub(ps, e, a), e - (Size(ps) - Size(Scrub(ps, e, a))), b) == Scrub(ps, e, a + b)
  {
    ScrubShrink(ps, e, a);
    ScrubComposeRemoved(ps, e, a, b);
  }

  lemma {:induction false} ScrubComposeRemoved(ps: seq<Text>, e: int, a: set<Token>, b: set<Token>)
    ensures Scrub(Scrub(ps, e, a), e - Removed(ps, e, a), b) == Scrub(ps, e, a + b)
  {
    if ps != [] {
      var p, rest := ps[0], ps[1..];
      var q := ScrubText(p, e, a);
      var r1 := Scrub(rest, e - |p| - 1, a);
      var extra := Removed(rest, e - |p| - 1, a);
      ScrubShrink(rest, e - |p| - 1, a);
      var e' := e - (|p| - |q|) - extra;
      assert Scrub(ps, e, a) == [q] + r1;
      assert e - Removed(ps, e, a) == e';
      ScrubCons(q, r1, e', b);
      ScrubTextCompose(p, e, a, b, extra);
      ScrubComposeRemoved(rest, e - |p| - 1, a, b);
    }
  }

  lemma {:induction false} ScrubNothing(ps: seq<Text>, e: int)
    ensures Scrub(ps, e, {}) == ps
  {
    if ps != [] {
      ScrubTextNothing(ps[0], e);
      ScrubNothing(ps[1..], e - |ps[0]| - 1);
    }
  }

  /** The region ends where paragraph `a` starts: every paragraph before it
      loses all tokens of `kill`, paragraph `a` and all later ones are
      untouched, and no paragraph is added or removed. */
  lemma ScrubBeforeParagraph(ps: seq<Text>, a: nat, kill: set<Token>)
    requires a <= |ps|
    ensures |Scrub(ps, ParaStart(ps, a), kill)| == |ps|
    ensures forall j :: 0 <= j < a ==> Scrub(ps, ParaStart(ps, a), kill)[j] == Filter(ps[j], kill)
    ensures forall j :: a <= j < |ps| ==> Scrub(ps, ParaStart(ps, a), kill)[j] == ps[j]
  {
    var e := ParaStart(ps, a);
    forall j | 0 <= j < |ps|
      ensures j < a ==> Scrub(ps, e, kill)[j] == Filter(ps[j], kill)
      ensures j >= a ==> Scrub(ps, e, kill)[j] == ps[j]
    {
      ScrubAt(ps, e, kill, j);
      if j < a {
        EndBeforeLaterStart(ps, j, a);
        ScrubTextCovered(ps[j], e - ParaStart(ps, j), kill);
      } else if j > a {
        EndBeforeLaterStart(ps, a, j);
      }
    }
  }

  /** Within any region, tokens of `kill` survive only at or after the region
      end, and nothing else changes. */
  lemma ScrubOnlyInRegion(ps: seq<Text>, e: int, kill: set<Token>, j: nat)
    requires j < |ps|
    ensures ParaStart(ps, j) >= e ==> Scrub(ps, e, kill)[j] == ps[j]
    ensures ParaStart(ps, j) + |ps[j]| <= e ==> Scrub(ps, e, kill)[j] == Filter(ps[j], kill)
  {
    ScrubAt(ps, e, kill, j);
    if ParaStart(ps, j) + |ps[j]| <= e {
      ScrubTextCovered(ps[j], e - ParaStart(ps, j), kill);
    }
  }

  // ---------------------------------------------------------------------
  // Tables of contents

  /** The arguments of `TablesOfContents.Add`: either explicit heading levels
      and page-number layout, or everything left to Word's defaults. */
  datatype TocConfig =
    | HeadingLevels(useHeadingStyles: bool, upper: nat, lower: nat,
                    rightAlignPageNumbers: bool, includePageNumbers: bool)
    | EngineDefault

  /** The configuration the core asks for first: heading styles 1 to 3, page
      numbers shown and right-aligned. */
  const Preferred: TocConfig := HeadingLevels(true, 1, 3, true, true)

  /** A TOC field: how it was configured and the offset it was inserted at. */
  datatype TocField = TocField(config: TocConfig, at: nat)

  /** The open Word document. `paras` is `Paragraphs` in document order.
      `tocs` holds the `TablesOfContents` fields in the order the core meets
      them: the fields already there, then each field added, last. */
  class Document {
    var paras: seq<Text>
    var tocs: seq<TocField>

    constructor (paras: seq<Text>, tocs: seq<TocField>)
      ensures this.paras == paras && this.tocs == tocs
    {
      this.paras := paras;
      this.tocs := tocs;
    }

    /** `Paragraphs(1).Range.Delete()` */
    method DeleteFirstParagraph()
      requires |paras| > 0
      modifies this
      ensures paras == old(paras)[1..] && tocs == old(tocs)
    {
      paras := paras[1..];
    }

    /** `TablesOfContents(1).Delete()` */
    method DeleteFirstToc()
      requires |tocs| > 0
      modifies this
      ensures tocs == old(tocs)[1..] && paras == old(paras)
    {
      tocs := tocs[1..];
    }

    /** `Range(0, end).Find.Execute(FindText=tok, ReplaceWith="",
        Replace=wdReplaceAll)`. Returns the range's end afterwards: Word pulls
        it back by the number of characters deleted inside it. */
    method ReplaceAll(end: nat, tok: Token) returns (newEnd: nat)
      modifies this
      ensures paras == Scrub(old(paras), end, {tok}) && tocs == old(tocs)
      ensures newEnd == end - (Size(old(paras)) - Size(paras))
    {
      ScrubShrink(paras, end, {tok});
      var before := Size(paras);
      paras := Scrub(paras, end, {tok});
      newEnd := end - (before - Size(paras));
    }

    /** Collapse paragraph `i`'s range to its start and `InsertBreak(7)`
        (wdPageBreak) there. */
    method InsertPageBreakBefore(i: nat)
      requires i < |paras|
      modifies this
      ensures paras == old(paras)[i := [ManualPageBreak] + old(paras)[i]]
      ensures tocs == old(tocs)
    {
      paras := paras[i := [ManualPageBreak] + paras[i]];
    }

    /** `TablesOfContents.Add(range, ...)` at the collapsed range `at` with
        the given configuration. */
    method AddToc(config: TocConfig, at: nat)
      modifies this
      ensures tocs == old(tocs) + [TocField(config, at)] && paras == old(paras)
    {
      tocs := tocs + [TocField(config, at)];
    }
  }
}
