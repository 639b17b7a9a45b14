/**
  The substitution engine (pss.py:9-49): a document tree of blocks, paragraphs
  and tables; the replacement of a paragraph by its whole text; the walk over
  every paragraph and every table cell; and the pass over the body and the
  header and footer of every section.
*/
module Substitution {
  import opened Text
  import opened TokenMap
  import opened Wrappers

  // ---------------------------------------------------------------------------
  // The document tree
  // ---------------------------------------------------------------------------

  /** A paragraph, as the texts of its runs in order (run formatting is not modelled). */
  datatype Paragraph = Paragraph(runs: seq<String>)

  /** A body, header, footer or table cell: its paragraphs and its tables, each in order. */
  datatype Block = Block(paragraphs: seq<Paragraph>, tables: seq<Table>)

  datatype Table = Table(rows: seq<Row>)

  datatype Row = Row(cells: seq<Block>)

  /**
    One section's header and footer. `None` is a header or footer whose
    processing fails; the source catches the exception and moves on.
  */
  datatype Section = Section(header: Option<Block>, footer: Option<Block>)

  /** The runs' texts joined, as `paragraph.text` reads them. */
  function Concat(runs: seq<String>): String {
    if runs == [] then [] else runs[0] + Concat(runs[1..])
  }

  function TextOf(p: Paragraph): String {
    Concat(p.runs)
  }

  // ---------------------------------------------------------------------------
  // Specification of the substitution
  // ---------------------------------------------------------------------------

  /**
    `replace_in_paragraph_by_text`: the new text is the mapping folded over
    the joined run text; a paragraph whose text changed becomes a single run
    holding it, any other paragraph is left exactly as it was.
  */
  function SubstParagraph(p: Paragraph, m: Mapping): (q: Paragraph)
    ensures TextOf(q) == ApplyMapping(TextOf(p), m)
    ensures q == p <==> ApplyMapping(TextOf(p), m) == TextOf(p)
    ensures q != p ==> q.runs == [ApplyMapping(TextOf(p), m)]
  {
    var text := TextOf(p);
    var newText := ApplyMapping(text, m);
    if newText != text then
      assert Concat([newText]) == newText + Concat([]);
      Paragraph([newText])
    else p
  }

  /** `replace_text_in_block`: every paragraph, then every table. */
  function SubstBlock(b: Block, m: Mapping): Block
    decreases b
  {
    Block(seq(|b.paragraphs|, i requires 0 <= i < |b.paragraphs| => SubstParagraph(b.paragraphs[i], m)),
          seq(|b.tables|, i requires 0 <= i < |b.tables| => SubstTable(b.tables[i], m)))
  }

  /** `replace_text_in_table`: every cell of every row, each cell as a block. */
  function SubstTable(t: Table, m: Mapping): Table
    decreases t
  {
    Table(seq(|t.rows|, i requires 0 <= i < |t.rows| => SubstRow(t.rows[i], m)))
  }

  function SubstRow(r: Row, m: Mapping): Row
    decreases r
  {
    Row(seq(|r.cells|, i requires 0 <= i < |r.cells| => SubstBlock(r.cells[i], m)))
  }

  /** A section's header and footer, each processed on its own; a failing one is skipped. */
  function SubstSection(s: Section, m: Mapping): Section {
    Section(
      if s.header.Some? then Some(SubstBlock(s.header.value, m)) else None,
      if s.footer.Some? then Some(SubstBlock(s.footer.value, m)) else None)
  }

  function SubstSections(ss: seq<Section>, m: Mapping): seq<Section> {
    seq(|ss|, i requires 0 <= i < |ss| => SubstSection(ss[i], m))
  }

  // ---------------------------------------------------------------------------
  // The engine as the source runs it
  // ---------------------------------------------------------------------------

  /** pss.py:9-21: the loop over the mapping's items on the joined text, then the rewrite. */
  method ReplaceInParagraph(p: Paragraph, m: Mapping) returns (q: Paragraph)
    ensures q == SubstParagraph(p, m)
  {
    var text := TextOf(p);
    var newText := text;
    var i := 0;
    while i < |m|
      invariant 0 <= i <= |m|
      invariant ApplyMapping(newText, m[i..]) == ApplyMapping(text, m)
    {
      assert m[i..][1..] == m[i + 1..];
      var (key, val) := m[i];
      if Contains(newText, key) {
        newText := ReplaceAll(newText, key, val);
      }
      i := i + 1;
    }
    if newText != text {
      q := Paragraph([newText]);
    } else {
      q := p;
    }
  }

  /** pss.py:28-35: each paragraph in turn, then each table in turn. */
  method ReplaceInBlock(b: Block, m: Mapping) returns (r: Block)
    ensures r == SubstBlock(b, m)
    decreases b, 1
  {
    var paragraphs := b.paragraphs;
    var i := 0;
    while i < |paragraphs|
      invariant 0 <= i <= |paragraphs| == |b.paragraphs|
      invariant forall j | 0 <= j < i :: paragraphs[j] == SubstParagraph(b.paragraphs[j], m)
      invariant forall j | i <= j < |paragraphs| :: paragraphs[j] == b.paragraphs[j]
    {
      var q := ReplaceInParagraph(paragraphs[i], m);
      paragraphs := paragraphs[i := q];
      i := i + 1;
    }
    var tables := b.tables;
    i := 0;
    while i < |tables|
      invariant 0 <= i <= |tables| == |b.tables|
      invariant forall j | 0 <= j < i :: tables[j] == SubstTable(b.tables[j], m)
      invariant forall j | i <= j < |tables| :: tables[j] == b.tables[j]
    {
      var t := ReplaceInTable(b.tables[i], m);
      tables := tables[i := t];
      i := i + 1;
    }
    r := Block(paragraphs, tables);
  }

  /** pss.py:23-26: for each row, for each cell, the cell as a block. */
  method ReplaceInTable(t: Table, m: Mapping) returns (r: Table)
    ensures r == SubstTable(t, m)
    decreases t, 0
  {
    var rows := t.rows;
    var i := 0;
    while i < |rows|
      invariant 0 <= i <= |rows| == |t.rows|
      invariant forall j | 0 <= j < i :: rows[j] == SubstRow(t.rows[j], m)
      invariant forall j | i <= j < |rows| :: rows[j] == t.rows[j]
    {
      var row := t.rows[i];
      var cells := row.cells;
      var k := 0;
      while k < |cells|
        invariant 0 <= k <= |cells| == |row.cells|
        invariant forall j | 0 <= j < k :: cells[j] == SubstBlock(row.cells[j], m)
        invariant forall j | k <= j < |cells| :: cells[j] == row.cells[j]
      {
        var c := ReplaceInBlock(row.cells[k], m);
        cells := cells[k := c];
        k := k + 1;
      }
      rows := rows[i := Row(cells)];
      i := i + 1;
    }
    r := Table(rows);
  }

  /** A loaded document: its body and its sections, which the engine rewrites in place. */
  class Document {
    var body: Block
    var sections: seq<Section>

    constructor (body: Block, sections: seq<Section>)
      ensures this.body == body && this.sections == sections
    {
      this.body := body;
      this.sections := sections;
    }

    /**
      pss.py:37-49: the body first, then the header and the footer of every
      section in order; a failing header or footer is skipped and the rest
      is still processed.
    */
    method ApplyReplacements(m: Mapping)
      modifies this
      ensures body == SubstBlock(old(body), m)
      ensures sections == SubstSections(old(sections), m)
    {
      body := ReplaceInBlock(body, m);
      var i := 0;
      while i < |sections|
        invariant 0 <= i <= |sections| == |old(sections)|
        invariant body == SubstBlock(old(body), m)
        invariant forall j | 0 <= j < i :: sections[j] == SubstSection(old(sections)[j], m)
        invariant forall j | i <= j < |sections| :: sections[j] == old(sections)[j]
      {
        var section := sections[i];
        var header := section.header;
        if header.Some? {
          var h := ReplaceInBlock(header.value, m);
          header := Some(h);
        }
        var footer := section.footer;
        if footer.Some? {
          var f := ReplaceInBlock(footer.value, m);
          footer := Some(f);
        }
        sections := sections[i := Section(header, footer)];
        i := i + 1;
      }
    }
  }

  // ---------------------------------------------------------------------------
  // The texts of a tree, in document order
  // ---------------------------------------------------------------------------

  function Flatten(xss: seq<seq<String>>): seq<String> {
    if xss == [] then [] else xss[0] + Flatten(xss[1..])
  }

  /** Every text in `ts` with the mapping applied to it on its own. */
  function MapApply(ts: seq<String>, m: Mapping): seq<String> {
    seq(|ts|, i requires 0 <= i < |ts| => ApplyMapping(ts[i], m))
  }

  /** Every text of `ts` is one the mapping leaves as it is. */
  predicate Unaffected(ts: seq<String>, m: Mapping) {
    forall i | 0 <= i < |ts| :: ApplyMapping(ts[i], m) == ts[i]
  }

  function ParagraphTexts(ps: seq<Paragraph>): seq<String> {
    seq(|ps|, i requires 0 <= i < |ps| => TextOf(ps[i]))
  }

  /** The paragraph texts of a block: its own paragraphs, then those of its tables, cell by cell. */
  function BlockTexts(b: Block): seq<String>
    decreases b
  {
    ParagraphTexts(b.paragraphs) + Flatten(seq(|b.tables|, i requires 0 <= i < |b.tables| => TableTexts(b.tables[i])))
  }

  function TableTexts(t: Table): seq<String>
    decreases t
  {
    Flatten(seq(|t.rows|, i requires 0 <= i < |t.rows| => RowTexts(t.rows[i])))
  }

  function RowTexts(r: Row): seq<String>
    decreases r
  {
    Flatten(seq(|r.cells|, i requires 0 <= i < |r.cells| => BlockTexts(r.cells[i])))
  }

  function OptionTexts(b: Option<Block>): seq<String> {
    if b.Some? then BlockTexts(b.value) else []
  }

  /** The texts of a section: its header's, then its footer's; a failing one contributes none. */
  function SectionTexts(s: Section): seq<String> {
    OptionTexts(s.header) + OptionTexts(s.footer)
  }

  /** The texts the engine visits, in its order: the body, then every section. */
  function DocumentTexts(body: Block, sections: seq<Section>): seq<String> {
    BlockTexts(body) + Flatten(seq(|sections|, i requires 0 <= i < |sections| => SectionTexts(sections[i])))
  }

  lemma MapApplyConcat(a: seq<String>, b: seq<String>, m: Mapping)
    ensures MapApply(a + b, m) == MapApply(a, m) + MapApply(b, m)
  {
  }

  lemma {:induction false} FlattenMapApply(xss: seq<seq<String>>, yss: seq<seq<String>>, m: Mapping)
    requires |xss| == |yss|
    requires forall i | 0 <= i < |xss| :: yss[i] == MapApply(xss[i], m)
    ensures Flatten(yss) == MapApply(Flatten(xss), m)
  {
    if xss != [] {
      FlattenMapApply(xss[1..], yss[1..], m);
      MapApplyConcat(xss[0], Flatten(xss[1..]), m);
    }
  }

  lemma {:induction false} FlattenUnaffected(xss: seq<seq<String>>, m: Mapping)
    ensures Unaffected(Flatten(xss), m) <==> forall i | 0 <= i < |xss| :: Unaffected(xss[i], m)
  {
    if xss != [] {
      FlattenUnaffected(xss[1..], m);
      var f := Flatten(xss);
      assert f == xss[0] + Flatten(xss[1..]);
      if Unaffected(f, m) {
        forall i | 0 <= i < |xss[0]| ensures ApplyMapping(xss[0][i], m) == xss[0][i] {
          assert f[i] == xss[0][i];
        }
        forall i | 0 <= i < |Flatten(xss[1..])| ensures ApplyMapping(Flatten(xss[1..])[i], m) == Flatten(xss[1..])[i] {
          assert f[|xss[0]| + i] == Flatten(xss[1..])[i];
        }
        forall i | 0 <= i < |xss| ensures Unaffected(xss[i], m) {
          if i > 0 {
            assert xss[i] == xss[1..][i - 1];
          }
        }
      }
      if forall i | 0 <= i < |xss| :: Unaffected(xss[i], m) {
        assert Unaffected(xss[0], m);
        forall i | 0 <= i < |xss[1..]| ensures Unaffected(xss[1..][i], m) {
          assert xss[1..][i] == xss[i + 1];
        }
      }
    }
  }

  // ---------------------------------------------------------------------------
  // Properties of the substitution
  // ---------------------------------------------------------------------------

  /**
    A token split across several runs is still found, because matching runs
    on the joined text: the paragraph becomes one run holding the value.
  */
  lemma SplitTokenReplaced(runs: seq<String>, key: String, val: String)
    requires key != [] && Concat(runs) == key && val != key
    ensures SubstParagraph(Paragraph(runs), [(key, val)]) == Paragraph([val])
  {
    assert OccursAt(key, key, 0);
    ReplaceAllAtMatch(key, [], val);
    assert key + [] == key;
    assert Step(key, (key, val)) == val;
    assert ApplyMapping(key, [(key, val)]) == ApplyMapping(val, []);
  }

  /** A paragraph in which no key occurs keeps its runs exactly. */
  lemma UntouchedParagraph(p: Paragraph, m: Mapping)
    requires NoKeyIn(TextOf(p), m)
    ensures SubstParagraph(p, m) == p
  {
    ApplyMappingAbsent(TextOf(p), m);
  }

  /**
    Coverage and locality: the texts of the substituted block are, one for
    one and in the same order, the original paragraph texts each with the
    mapping applied on its own, whether the paragraph sits in the block or
    in a cell of one of its tables at any depth.
  */
  lemma {:induction false} SubstBlockTexts(b: Block, m: Mapping)
    ensures BlockTexts(SubstBlock(b, m)) == MapApply(BlockTexts(b), m)
    decreases b, 2
  {
    var sb := SubstBlock(b, m);
    assert ParagraphTexts(sb.paragraphs) == MapApply(ParagraphTexts(b.paragraphs), m);
    var xss := seq(|b.tables|, i requires 0 <= i < |b.tables| => TableTexts(b.tables[i]));
    var yss := seq(|sb.tables|, i requires 0 <= i < |sb.tables| => TableTexts(sb.tables[i]));
    forall i | 0 <= i < |xss| ensures yss[i] == MapApply(xss[i], m) {
      SubstTableTexts(b.tables[i], m);
    }
    FlattenMapApply(xss, yss, m);
    MapApplyConcat(ParagraphTexts(b.paragraphs), Flatten(xss), m);
  }

  lemma {:induction false} SubstTableTexts(t: Table, m: Mapping)
    ensures TableTexts(SubstTable(t, m)) == MapApply(TableTexts(t), m)
    decreases t, 1
  {
    var st := SubstTable(t, m);
    var xss := seq(|t.rows|, i requires 0 <= i < |t.rows| => RowTexts(t.rows[i]));
    var yss := seq(|st.rows|, i requires 0 <= i < |st.rows| => RowTexts(st.rows[i]));
    forall i | 0 <= i < |xss| ensures yss[i] == MapApply(xss[i], m) {
      SubstRowTexts(t.rows[i], m);
    }
    FlattenMapApply(xss, yss, m);
  }

  lemma {:induction false} SubstRowTexts(r: Row, m: Mapping)
    ensures RowTexts(SubstRow(r, m)) == MapApply(RowTexts(r), m)
    decreases r, 0
  {
    var sr := SubstRow(r, m);
    var xss := seq(|r.cells|, i requires 0 <= i < |r.cells| => BlockTexts(r.cells[i]));
    var yss := seq(|sr.cells|, i requires 0 <= i < |sr.cells| => BlockTexts(sr.cells[i]));
    forall i | 0 <= i < |xss| ensures yss[i] == MapApply(xss[i], m) {
      SubstBlockTexts(r.cells[i], m);
    }
    FlattenMapApply(xss, yss, m);
  }

  /** Two blocks with the same paragraphs-and-tables skeleton, down to every cell. */
  predicate SameShape(a: Block, b: Block)
    decreases a
  {
    |a.paragraphs| == |b.paragraphs| && |a.tables| == |b.tables| &&
    forall i | 0 <= i < |a.tables| :: SameTableShape(a.tables[i], b.tables[i])
  }

  predicate SameTableShape(s: Table, t: Table)
    decreases s
  {
    |s.rows| == |t.rows| &&
    forall i | 0 <= i < |s.rows| :: SameRowShape(s.rows[i], t.rows[i])
  }

  predicate SameRowShape(r: Row, q: Row)
    decreases r
  {
    |r.cells| == |q.cells| &&
    forall i | 0 <= i < |r.cells| :: SameShape(r.cells[i], q.cells[i])
  }

  /** Substitution keeps every paragraph, table, row and cell where it was. */
  lemma {:induction false} SubstBlockShape(b: Block, m: Mapping)
    ensures SameShape(b, SubstBlock(b, m))
    decreases b, 2
  {
    var sb := SubstBlock(b, m);
    forall i | 0 <= i < |b.tables| ensures SameTableShape(b.tables[i], sb.tables[i]) {
      SubstTableShape(b.tables[i], m);
    }
  }

  lemma {:induction false} SubstTableShape(t: Table, m: Mapping)
    ensures SameTableShape(t, SubstTable(t, m))
    decreases t, 1
  {
    var st := SubstTable(t, m);
    forall i | 0 <= i < |t.rows| ensures SameRowShape(t.rows[i], st.rows[i]) {
      SubstRowShape(t.rows[i], m);
    }
  }

  lemma {:induction false} SubstRowShape(r: Row, m: Mapping)
    ensures SameRowShape(r, SubstRow(r, m))
    decreases r, 0
  {
    var sr := SubstRow(r, m);
    forall i | 0 <= i < |r.cells| ensures SameShape(r.cells[i], sr.cells[i]) {
      SubstBlockShape(r.cells[i], m);
    }
  }

  /** A block comes out identical exactly when the mapping changes none of its paragraph texts. */
  lemma {:induction false} SubstBlockIdentity(b: Block, m: Mapping)
    ensures SubstBlock(b, m) == b <==> Unaffected(BlockTexts(b), m)
    decreases b, 2
  {
    var sb := SubstBlock(b, m);
    var xss := seq(|b.tables|, i requires 0 <= i < |b.tables| => TableTexts(b.tables[i]));
    var ps := ParagraphTexts(b.paragraphs);
    FlattenUnaffected(xss, m);
    assert BlockTexts(b) == ps + Flatten(xss);
    forall i | 0 <= i < |b.tables| ensures SubstTable(b.tables[i], m) == b.tables[i] <==> Unaffected(xss[i], m) {
      SubstTableIdentity(b.tables[i], m);
    }
    if Unaffected(BlockTexts(b), m) {
      forall i | 0 <= i < |ps| ensures ApplyMapping(ps[i], m) == ps[i] {
        assert BlockTexts(b)[i] == ps[i];
      }
      forall i | 0 <= i < |xss| ensures Unaffected(xss[i], m) {
        forall k | 0 <= k < |Flatten(xss)| ensures ApplyMapping(Flatten(xss)[k], m) == Flatten(xss)[k] {
          assert BlockTexts(b)[|ps| + k] == Flatten(xss)[k];
        }
      }
      forall i | 0 <= i < |ps| ensures sb.paragraphs[i] == b.paragraphs[i] {
        assert ps[i] == TextOf(b.paragraphs[i]);
      }
      assert sb.paragraphs == b.paragraphs;
      assert sb.tables == b.tables;
    }
    if sb == b {
      SubstBlockTexts(b, m);
      forall i | 0 <= i < |BlockTexts(b)| ensures ApplyMapping(BlockTexts(b)[i], m) == BlockTexts(b)[i] {
        assert MapApply(BlockTexts(b), m)[i] == BlockTexts(b)[i];
      }
    }
  }

  lemma {:induction false} SubstTableIdentity(t: Table, m: Mapping)
    ensures SubstTable(t, m) == t <==> Unaffected(TableTexts(t), m)
    decreases t, 1
  {
    var xss := seq(|t.rows|, i requires 0 <= i < |t.rows| => RowTexts(t.rows[i]));
    FlattenUnaffected(xss, m);
    forall i | 0 <= i < |t.rows| ensures SubstRow(t.rows[i], m) == t.rows[i] <==> Unaffected(xss[i], m) {
      SubstRowIdentity(t.rows[i], m);
    }
    if Unaffected(TableTexts(t), m) {
      assert SubstTable(t, m).rows == t.rows;
    }
    if SubstTable(t, m) == t {
      forall i | 0 <= i < |t.rows| ensures Unaffected(xss[i], m) {
        assert SubstTable(t, m).rows[i] == t.rows[i];
      }
    }
  }

  lemma {:induction false} SubstRowIdentity(r: Row, m: Mapping)
    ensures SubstRow(r, m) == r <==> Unaffected(RowTexts(r), m)
    decreases r, 0
  {
    var xss := seq(|r.cells|, i requires 0 <= i < |r.cells| => BlockTexts(r.cells[i]));
    FlattenUnaffected(xss, m);
    forall i | 0 <= i < |r.cells| ensures SubstBlock(r.cells[i], m) == r.cells[i] <==> Unaffected(xss[i], m) {
      SubstBlockIdentity(r.cells[i], m);
    }
    if Unaffected(RowTexts(r), m) {
      assert SubstRow(r, m).cells == r.cells;
    }
    if SubstRow(r, m) == r {
      forall i | 0 <= i < |r.cells| ensures Unaffected(xss[i], m) {
        assert SubstRow(r, m).cells[i] == r.cells[i];
      }
    }
  }

  /** A block in whose paragraphs no key occurs is left exactly as it was. */
  lemma UntouchedBlock(b: Block, m: Mapping)
    requires forall i | 0 <= i < |BlockTexts(b)| :: NoKeyIn(BlockTexts(b)[i], m)
    ensures SubstBlock(b, m) == b
  {
    forall i | 0 <= i < |BlockTexts(b)| ensures ApplyMapping(BlockTexts(b)[i], m) == BlockTexts(b)[i] {
      ApplyMappingAbsent(BlockTexts(b)[i], m);
    }
    SubstBlockIdentity(b, m);
  }

  /**
    Every region is covered: the texts of the processed document are the
    texts of the body and of every present header and footer, in order,
    each with the mapping applied on its own.
  */
  lemma SubstDocumentTexts(body: Block, sections: seq<Section>, m: Mapping)
    ensures DocumentTexts(SubstBlock(body, m), SubstSections(sections, m)) == MapApply(DocumentTexts(body, sections), m)
  {
    var ss := SubstSections(sections, m);
    var xss := seq(|sections|, i requires 0 <= i < |sections| => SectionTexts(sections[i]));
    var yss := seq(|ss|, i requires 0 <= i < |ss| => SectionTexts(ss[i]));
    forall i | 0 <= i < |xss| ensures yss[i] == MapApply(xss[i], m) {
      var s := sections[i];
      if s.header.Some? {
        SubstBlockTexts(s.header.value, m);
      }
      if s.footer.Some? {
        SubstBlockTexts(s.footer.value, m);
      }
      MapApplyConcat(OptionTexts(s.header), OptionTexts(s.footer), m);
    }
    FlattenMapApply(xss, yss, m);
    SubstBlockTexts(body, m);
    MapApplyConcat(BlockTexts(body), Flatten(xss), m);
  }

  /**
    A header that fails is isolated: the outcome for every other header,
    every footer (its own section's included) and every other section is
    the one the document would have had with that header intact.
  */
  lemma HeaderFailureIsolated(sections: seq<Section>, i: nat, m: Mapping)
    requires i < |sections|
    ensures var failing := sections[i := Section(None, sections[i].footer)];
            var full := SubstSections(sections, m);
            SubstSections(failing, m) == full[i := Section(None, full[i].footer)]
  {
  }

  /** The same for a footer that fails. */
  lemma FooterFailureIsolated(sections: seq<Section>, i: nat, m: Mapping)
    requires i < |sections|
    ensures var failing := sections[i := Section(sections[i].header, None)];
            var full := SubstSections(sections, m);
            SubstSections(failing, m) == full[i := Section(full[i].header, None)]
  {
  }
}
