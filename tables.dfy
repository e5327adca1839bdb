/**
 * The abstract view of the Word tables a report template is made of.
 *
 * A table is a grid of cells, a cell a list of paragraphs, and a paragraph
 * the texts of its runs (a run is a stretch of text with one formatting).
 * Overwriting a paragraph puts the new text in its first run and clears the
 * others, so the runs (and their formatting) stay while the old text goes.
 * A run of overwrites stops at the first one that addresses a paragraph
 * that is not there, as the IndexError it raises would stop the caller.
 */
module Tables {
  import opened Wrappers

  /** The text of each run of a paragraph, in order. */
  type Paragraph = seq<string>
  /** The paragraphs of one table cell. */
  type Cell = seq<Paragraph>
  /** A table as its rows, and each row as its cells. */
  type Table = seq<seq<Cell>>

  /** The address of one paragraph: row, column, and paragraph within the cell. */
  datatype Pos = Pos(row: nat, col: nat, par: nat)

  /** One overwrite: `text` into the paragraph at `at`. */
  datatype Write = Write(at: Pos, text: string)

  /** Why an overwrite (or the code around it) raised an IndexError. */
  datatype Error =
    | NoSuchCell(row: nat, col: nat)
    | NoSuchParagraph(at: Pos)
    | NoRuns(at: Pos)
    | NoSuchDate(index: nat)

  datatype Outcome = Done | Raised(error: Error)

  /** A table after a run of overwrites, and whether one of them raised. */
  datatype Effect = Effect(table: Table, outcome: Outcome)

  predicate Has(t: Table, p: Pos) {
    p.row < |t| && p.col < |t[p.row]| && p.par < |t[p.row][p.col]|
  }

  function Get(t: Table, p: Pos): Paragraph
    requires Has(t, p)
  {
    t[p.row][p.col][p.par]
  }

  /** The paragraph at `p` exists and has a first run to hold new text. */
  predicate Addressable(t: Table, p: Pos) {
    Has(t, p) && |Get(t, p)| >= 1
  }

  /** Same rows, cells, paragraphs, and runs per paragraph. */
  ghost predicate SameShape(a: Table, b: Table) {
    && |a| == |b|
    && (forall i :: 0 <= i < |a| ==> |a[i]| == |b[i]|)
    && (forall i, j :: 0 <= i < |a| && 0 <= j < |a[i]| ==> |a[i][j]| == |b[i][j]|)
    && (forall p: Pos :: Has(a, p) ==> |Get(a, p)| == |Get(b, p)|)
  }

  lemma SameShapeAddresses(a: Table, b: Table, p: Pos)
    requires SameShape(a, b)
    ensures Has(a, p) <==> Has(b, p)
    ensures Addressable(a, p) <==> Addressable(b, p)
  {
  }

  lemma SameShapeTransitive(a: Table, b: Table, c: Table)
    requires SameShape(a, b) && SameShape(b, c)
    ensures SameShape(a, c)
  {
    forall p: Pos | Has(a, p)
      ensures Has(c, p) && |Get(a, p)| == |Get(c, p)|
    {
      SameShapeAddresses(a, b, p);
    }
  }

  /** The concatenated text of a paragraph's runs (python-docx's `paragraph.text`). */
  function Text(p: Paragraph): string {
    if p == [] then "" else p[0] + Text(p[1..])
  }

  /** `p` with `text` in its first run and every other run cleared. */
  function Overwritten(p: Paragraph, text: string): (q: Paragraph)
    requires |p| >= 1
    ensures |q| == |p| && q[0] == text
    ensures forall k :: 1 <= k < |q| ==> q[k] == ""
  {
    [text] + seq(|p| - 1, _ => "")
  }

  lemma {:induction false} ClearedRunsHaveNoText(p: Paragraph)
    requires forall k :: 0 <= k < |p| ==> p[k] == ""
    ensures Text(p) == ""
  {
    if p != [] {
      ClearedRunsHaveNoText(p[1..]);
    }
  }

  /** After an overwrite the paragraph reads exactly `text`: no old text is left. */
  lemma OverwrittenReadsText(p: Paragraph, text: string)
    requires |p| >= 1
    ensures Text(Overwritten(p, text)) == text
  {
    var q := Overwritten(p, text);
    ClearedRunsHaveNoText(q[1..]);
  }

  /** The IndexError an overwrite at `p` raises. */
  function Fault(t: Table, p: Pos): Error
    requires !Addressable(t, p)
  {
    if p.row >= |t| || p.col >= |t[p.row]| then NoSuchCell(p.row, p.col)
    else if p.par >= |t[p.row][p.col]| then NoSuchParagraph(p)
    else NoRuns(p)
  }

  /** One overwrite of one paragraph of one cell. */
  function Assign(t: Table, w: Write): (r: Result<Table, Error>)
    ensures r.Success? <==> Addressable(t, w.at)
    ensures r.Failure? ==> r.error == Fault(t, w.at)
  {
    if !Addressable(t, w.at) then Failure(Fault(t, w.at))
    else
      var p := w.at;
      var cell := t[p.row][p.col][p.par := Overwritten(Get(t, p), w.text)];
      Success(t[p.row := t[p.row][p.col := cell]])
  }

  /**
   * An overwrite that goes through keeps the table's shape, puts the text in
   * the target paragraph and changes no other paragraph.
   */
  lemma AssignOverwrites(t: Table, w: Write)
    requires Addressable(t, w.at)
    ensures SameShape(Assign(t, w).value, t)
    ensures Get(Assign(t, w).value, w.at) == Overwritten(Get(t, w.at), w.text)
    ensures forall p: Pos :: Has(t, p) && p != w.at ==> Get(Assign(t, w).value, p) == Get(t, p)
  {
  }

  /** Overwrites in order, stopping at the first that raises. */
  function ApplyWrites(t: Table, ws: seq<Write>): Effect
    decreases |ws|
  {
    if ws == [] then Effect(t, Done)
    else match Assign(t, ws[0])
      case Failure(err) => Effect(t, Raised(err))
      case Success(t') => ApplyWrites(t', ws[1..])
  }

  /** Overwrites never add or remove rows, cells, paragraphs or runs. */
  lemma {:induction false} ApplyWritesShape(t: Table, ws: seq<Write>)
    ensures SameShape(ApplyWrites(t, ws).table, t)
    decreases |ws|
  {
    if ws != [] && Assign(t, ws[0]).Success? {
      var t' := Assign(t, ws[0]).value;
      AssignOverwrites(t, ws[0]);
      ApplyWritesShape(t', ws[1..]);
      SameShapeTransitive(ApplyWrites(t', ws[1..]).table, t', t);
    }
  }

  /** Go on with `ws` after `e`, unless something has already raised. */
  function Then(e: Effect, ws: seq<Write>): Effect {
    if e.outcome.Raised? then e else ApplyWrites(e.table, ws)
  }

  lemma {:induction false} ApplyWritesAppend(t: Table, a: seq<Write>, b: seq<Write>)
    ensures ApplyWrites(t, a + b) == Then(ApplyWrites(t, a), b)
    decreases |a|
  {
    if a != [] {
      assert (a + b)[0] == a[0] && (a + b)[1..] == a[1..] + b;
      match Assign(t, a[0])
      case Failure(_) =>
      case Success(t') => ApplyWritesAppend(t', a[1..], b);
    } else {
      assert a + b == b;
    }
  }

  /** Once a prefix of the writes has raised, the rest are never made. */
  lemma RaisedPrefixDecides(t: Table, a: seq<Write>, ws: seq<Write>)
    requires a <= ws && ApplyWrites(t, a).outcome.Raised?
    ensures ApplyWrites(t, ws) == ApplyWrites(t, a)
  {
    assert ws == a + ws[|a|..];
    ApplyWritesAppend(t, a, ws[|a|..]);
  }

  /** No write of `ws` addresses `p`. */
  predicate Untouched(ws: seq<Write>, p: Pos) {
    forall n :: 0 <= n < |ws| ==> ws[n].at != p
  }

  /** No two writes of `ws` address the same paragraph. */
  predicate DistinctTargets(ws: seq<Write>) {
    forall m, n :: 0 <= m < n < |ws| ==> ws[m].at != ws[n].at
  }

  /** A paragraph no write addresses keeps its runs, whether or not a write raised. */
  lemma {:induction false} ApplyWritesFrame(t: Table, ws: seq<Write>, p: Pos)
    requires Has(t, p) && Untouched(ws, p)
    ensures Has(ApplyWrites(t, ws).table, p)
    ensures Get(ApplyWrites(t, ws).table, p) == Get(t, p)
    decreases |ws|
  {
    ApplyWritesShape(t, ws);
    SameShapeAddresses(ApplyWrites(t, ws).table, t, p);
    if ws != [] {
      match Assign(t, ws[0])
      case Failure(_) =>
      case Success(t') =>
        SameShapeAddresses(t, t', p);
        ApplyWritesFrame(t', ws[1..], p);
    }
  }

  /** The writes all go through exactly when every one of them is addressable. */
  lemma {:induction false} ApplyWritesDone(t: Table, ws: seq<Write>)
    ensures ApplyWrites(t, ws).outcome == Done <==>
            forall n :: 0 <= n < |ws| ==> Addressable(t, ws[n].at)
    decreases |ws|
  {
    if ws != [] {
      match Assign(t, ws[0])
      case Failure(_) =>
      case Success(t') =>
        ApplyWritesDone(t', ws[1..]);
        forall n | 0 <= n < |ws|
          ensures Addressable(t, ws[n].at) <==> Addressable(t', ws[n].at)
        {
          SameShapeAddresses(t, t', ws[n].at);
        }
    }
  }

  /**
   * When write `m` is the first that is not addressable, the writes before it
   * stay made, the ones after it are not, and its IndexError is raised.
   */
  lemma {:induction false} ApplyWritesRaised(t: Table, ws: seq<Write>, m: nat)
    requires m < |ws| && !Addressable(t, ws[m].at)
    requires forall n :: 0 <= n < m ==> Addressable(t, ws[n].at)
    ensures ApplyWrites(t, ws) == Effect(ApplyWrites(t, ws[..m]).table, Raised(Fault(t, ws[m].at)))
  {
    ApplyWritesDone(t, ws[..m]);
    var e := ApplyWrites(t, ws[..m]);
    assert ws == ws[..m] + ([ws[m]] + ws[m + 1..]);
    ApplyWritesAppend(t, ws[..m], [ws[m]] + ws[m + 1..]);
    ApplyWritesShape(t, ws[..m]);
    SameShapeAddresses(e.table, t, ws[m].at);
  }

  /** Where the writes go through and no two share a target, each target holds its text. */
  lemma {:induction false} ApplyWritesPlaces(t: Table, ws: seq<Write>, n: nat)
    requires ApplyWrites(t, ws).outcome == Done && DistinctTargets(ws) && n < |ws|
    ensures Has(t, ws[n].at) && |Get(t, ws[n].at)| >= 1
    ensures Has(ApplyWrites(t, ws).table, ws[n].at)
    ensures Get(ApplyWrites(t, ws).table, ws[n].at) == Overwritten(Get(t, ws[n].at), ws[n].text)
    decreases |ws|
  {
    ApplyWritesDone(t, ws);
    if n == 0 {
      FirstWritePlaced(t, ws);
    } else {
      var t' := Assign(t, ws[0]).value;
      AssignOverwrites(t, ws[0]);
      SameShapeAddresses(t, t', ws[n].at);
      ApplyWritesPlaces(t', ws[1..], n - 1);
    }
  }

  /** The first write, once made, is not undone by the later ones to other targets. */
  lemma FirstWritePlaced(t: Table, ws: seq<Write>)
    requires |ws| >= 1 && Addressable(t, ws[0].at) && Untouched(ws[1..], ws[0].at)
    ensures Has(ApplyWrites(t, ws).table, ws[0].at)
    ensures Get(ApplyWrites(t, ws).table, ws[0].at) == Overwritten(Get(t, ws[0].at), ws[0].text)
  {
    var t' := Assign(t, ws[0]).value;
    AssignOverwrites(t, ws[0]);
    SameShapeAddresses(t, t', ws[0].at);
    ApplyWritesFrame(t', ws[1..], ws[0].at);
  }
}
