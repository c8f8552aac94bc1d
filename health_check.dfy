/**
 * The three sub-checks `mbt_success` runs on a tracked frame, as values: the variance limit
 * on the six covariance diagonal entries, the bank of six Hinkley detectors, and the
 * checkpoint windows whose grey-level median must stay dark.
 */
module HealthCheck {
  import opened Geometry
  import opened Collaborators

  /** The variance-limit loop: fails at the first degree of freedom above the limit. */
  method WithinVarianceLimit(diag: seq<real>, limit: real) returns (ok: bool)
    requires |diag| == 6
    ensures ok <==> forall i :: 0 <= i < 6 ==> diag[i] <= limit
  {
    for i := 0 to 6
      invariant forall k :: 0 <= k < i ==> diag[k] <= limit
    {
      if diag[i] > limit {
        return false;
      }
    }
    return true;
  }

  /** The index of the first detector, from `from` on, that reports a jump; 6 when none does. */
  function FirstJump(bank: seq<Hinkley>, diag: seq<real>, jump: (Hinkley, real) -> bool, from: nat): (k: nat)
    requires |bank| == 6 && |diag| == 6 && from <= 6
    ensures from <= k <= 6
    ensures forall i :: from <= i < k ==> !jump(bank[i], diag[i])
    ensures k < 6 ==> jump(bank[k], diag[k])
    decreases 6 - from
  {
    if from == 6 then 6
    else if jump(bank[from], diag[from]) then from
    else FirstJump(bank, diag, jump, from + 1)
  }

  /** The bank after its first `n` detectors were each fed their own diagonal entry. */
  function FeedFirst(bank: seq<Hinkley>, diag: seq<real>, n: nat): (bank': seq<Hinkley>)
    requires |bank| == 6 && |diag| == 6
    ensures |bank'| == 6
  {
    seq(6, i requires 0 <= i < 6 => if i < n then Feed(bank[i], diag[i]) else bank[i])
  }

  /**
   * Feeding never re-initialises: every detector keeps its parameters, its history only
   * grows, and the detectors after the first `n` are untouched.
   */
  lemma FeedingKeepsSeeds(bank: seq<Hinkley>, diag: seq<real>, n: nat)
    requires |bank| == 6 && |diag| == 6
    ensures forall i :: 0 <= i < 6 ==>
      FeedFirst(bank, diag, n)[i].seeded == bank[i].seeded &&
      FeedFirst(bank, diag, n)[i].alpha == bank[i].alpha &&
      FeedFirst(bank, diag, n)[i].delta == bank[i].delta &&
      bank[i].samples <= FeedFirst(bank, diag, n)[i].samples
    ensures forall i :: n <= i < 6 ==> FeedFirst(bank, diag, n)[i] == bank[i]
    ensures forall i :: 0 <= i < 6 && i < n ==> FeedFirst(bank, diag, n)[i].samples == bank[i].samples + [diag[i]]
  {
  }

  /** A pixel of a window: column `col`, row `row`. */
  datatype Cell = Cell(col: int, row: int)

  /** Rows `jlo` up to (not including) `j` of column `i`, top to bottom. */
  function Column(i: int, jlo: int, j: int): (cs: seq<Cell>)
    ensures |cs| == if j <= jlo then 0 else j - jlo
    ensures forall k :: 0 <= k < |cs| ==> cs[k] == Cell(i, jlo + k)
    decreases j - jlo
  {
    if j <= jlo then [] else Column(i, jlo, j - 1) + [Cell(i, j - 1)]
  }

  /** The cells the two nested loops visit: columns `ilo` up to `i`, each over rows `jlo` up to `jhi`. */
  function Cells(ilo: int, i: int, jlo: int, jhi: int): (cs: seq<Cell>)
    ensures forall k :: 0 <= k < |cs| ==> ilo <= cs[k].col < i && jlo <= cs[k].row < jhi
    decreases i - ilo
  {
    if i <= ilo then [] else Cells(ilo, i - 1, jlo, jhi) + Column(i - 1, jlo, jhi)
  }

  /** Every cell of the rectangle is visited. */
  lemma {:induction false} CellsComplete(ilo: int, i: int, jlo: int, jhi: int, c: Cell)
    requires ilo <= c.col < i && jlo <= c.row < jhi
    ensures c in Cells(ilo, i, jlo, jhi)
    decreases i - ilo
  {
    var left, column := Cells(ilo, i - 1, jlo, jhi), Column(i - 1, jlo, jhi);
    assert Cells(ilo, i, jlo, jhi) == left + column;
    if c.col == i - 1 {
      assert column[c.row - jlo] == c;
    } else {
      CellsComplete(ilo, i - 1, jlo, jhi, c);
    }
  }

  /** A checkpoint window: centre pixel (u, v) and half-sizes. */
  datatype Window = Window(u: int, v: int, halfWidth: int, halfHeight: int)

  /**
   * The window of a checkpoint whose middle point projects to pixel (mu, mv) and whose inner
   * point projects to (iu, iv): the centre is truncated to integers, and each half-size is
   * the truncated gap times `size`, but never less than 1.
   */
  function CheckpointWindow(mu: real, mv: real, iu: real, iv: real, size: real): (w: Window)
    ensures w.u == Trunc(mu) && w.v == Trunc(mv)
    ensures w.halfWidth >= 1 && w.halfWidth >= Trunc(Abs(mu - iu) * size)
    ensures w.halfWidth == 1 || w.halfWidth == Trunc(Abs(mu - iu) * size)
    ensures w.halfHeight >= 1 && w.halfHeight >= Trunc(Abs(mv - iv) * size)
    ensures w.halfHeight == 1 || w.halfHeight == Trunc(Abs(mv - iv) * size)
  {
    Window(Trunc(mu), Trunc(mv), Max(Trunc(Abs(mu - iu) * size), 1), Max(Trunc(Abs(mv - iv) * size), 1))
  }

  /** The cells the checkpoint loops visit in an image of the given size. */
  function WindowCells(w: Window, width: int, height: int): (cs: seq<Cell>)
    ensures forall k :: 0 <= k < |cs| ==> 0 <= cs[k].col < width && 0 <= cs[k].row < height
  {
    Cells(Max(w.u - w.halfWidth, 0), Min(w.u + w.halfWidth, width),
          Max(w.v - w.halfHeight, 0), Min(w.v + w.halfHeight, height))
  }

  /** The visited cells are exactly the window clipped to the image. */
  lemma WindowCellsExact(w: Window, width: int, height: int, c: Cell)
    ensures c in WindowCells(w, width, height) <==>
              0 <= c.col < width && 0 <= c.row < height &&
              w.u - w.halfWidth <= c.col < w.u + w.halfWidth &&
              w.v - w.halfHeight <= c.row < w.v + w.halfHeight
  {
    var ilo, ihi := Max(w.u - w.halfWidth, 0), Min(w.u + w.halfWidth, width);
    var jlo, jhi := Max(w.v - w.halfHeight, 0), Min(w.v + w.halfHeight, height);
    if ilo <= c.col < ihi && jlo <= c.row < jhi {
      CellsComplete(ilo, ihi, jlo, jhi, c);
    }
  }

  /**
   * A window whose centre lies in the image samples at least the centre pixel, even when
   * the middle and inner points project to the same pixel.
   */
  lemma CentreIsSampled(mu: real, mv: real, iu: real, iv: real, size: real, width: int, height: int)
    requires 0 <= Trunc(mu) < width && 0 <= Trunc(mv) < height
    ensures Cell(Trunc(mu), Trunc(mv)) in WindowCells(CheckpointWindow(mu, mv, iu, iv, size), width, height)
  {
    WindowCellsExact(CheckpointWindow(mu, mv, iu, iv, size), width, height, Cell(Trunc(mu), Trunc(mv)));
  }

  /** `samples` holds, in order, the grey level of each cell of `cs`, every cell inside the image. */
  ghost predicate Sampled(img: Image, samples: seq<int>, cs: seq<Cell>)
    requires WellFormed(img)
  {
    |samples| == |cs| &&
    forall k :: 0 <= k < |cs| ==>
      (0 <= cs[k].row < img.rows && 0 <= cs[k].col < img.cols && samples[k] == img.luma[cs[k].row][cs[k].col])
  }

  lemma SampledAppend(img: Image, samples: seq<int>, cs: seq<Cell>, c: Cell)
    requires WellFormed(img) && Sampled(img, samples, cs)
    requires 0 <= c.row < img.rows && 0 <= c.col < img.cols
    ensures Sampled(img, samples + [img.luma[c.row][c.col]], cs + [c])
  {
  }

  lemma SampledConcat(img: Image, samples: seq<int>, cs: seq<Cell>, more: seq<int>, ds: seq<Cell>)
    requires WellFormed(img) && Sampled(img, samples, cs) && Sampled(img, more, ds)
    ensures Sampled(img, samples + more, cs + ds)
  {
    assert forall k :: |cs| <= k < |cs| + |ds| ==> (cs + ds)[k] == ds[k - |cs|] && (samples + more)[k] == more[k - |cs|];
  }

  /** The inner loop of one checkpoint: the grey levels of rows `jlo` up to `jhi` of column `i`. */
  method SampleColumn(img: Image, i: int, jlo: int, jhi: int) returns (samples: seq<int>)
    requires WellFormed(img) && 0 <= i < img.cols && 0 <= jlo && jhi <= img.rows
    ensures Sampled(img, samples, Column(i, jlo, jhi))
  {
    samples := [];
    var j := jlo;
    while j < jhi
      invariant jlo <= j <= Max(jhi, jlo)
      invariant Sampled(img, samples, Column(i, jlo, j))
    {
      SampledAppend(img, samples, Column(i, jlo, j), Cell(i, j));
      samples := samples + [img.luma[j][i]];
      j := j + 1;
    }
  }

  /** The two nested loops of one checkpoint: every grey level of the clipped window, column by column. */
  method SampleWindow(img: Image, w: Window) returns (samples: seq<int>)
    requires WellFormed(img)
    ensures Sampled(img, samples, WindowCells(w, img.cols, img.rows))
  {
    var ilo, ihi := Max(w.u - w.halfWidth, 0), Min(w.u + w.halfWidth, img.cols);
    var jlo, jhi := Max(w.v - w.halfHeight, 0), Min(w.v + w.halfHeight, img.rows);
    samples := [];
    var i := ilo;
    while i < ihi
      invariant ilo <= i <= Max(ihi, ilo)
      invariant Sampled(img, samples, Cells(ilo, i, jlo, jhi))
    {
      var column := SampleColumn(img, i, jlo, jhi);
      SampledConcat(img, samples, Cells(ilo, i, jlo, jhi), column, Column(i, jlo, jhi));
      samples := samples + column;
      i := i + 1;
    }
  }
}
