/**
 The embedding sidecar: texts are tokenized, run through the model in padded
 batches of at most 32, mean-pooled under the attention mask and normalised.
 Arithmetic is over the reals; the model and the norm are parameters.
 */
module Embedding {
  import opened Prelude

  const MODEL_DIMENSIONS := 384
  const MAX_LENGTH := 512
  const MAX_EMBED_BATCH_SIZE := 32

  datatype Encoding = Encoding(ids: seq<int>, mask: seq<int>, types: seq<int>)

  predicate Aligned(e: Encoding) {
    |e.mask| == |e.ids| && |e.types| == |e.ids|
  }

  type Matrix = seq<seq<int>>

  datatype Input = Input(ids: Matrix, mask: Matrix, types: Matrix)

  type Hidden = seq<seq<seq<real>>>

  datatype Session = Session(run: Input -> Hidden, norm: seq<real> -> real)

  datatype Failure = ModeInvalid | ZeroNorm

  // ---------------------------------------------------------------------
  // Padding
  // ---------------------------------------------------------------------

  function PadRow(s: seq<int>, width: nat): (row: seq<int>)
    ensures |row| == width
  {
    seq(width, c requires 0 <= c < width => if c < |s| then s[c] else 0)
  }

  function LongestIds(items: seq<Encoding>): (n: nat)
    ensures forall i | 0 <= i < |items| :: |items[i].ids| <= n
  {
    if items == [] then 0
    else
      var last := |items| - 1;
      var n := LongestIds(items[..last]);
      assert forall i | 0 <= i < last :: items[..last][i] == items[i];
      if |items[last].ids| > n then |items[last].ids| else n
  }

  function Width(items: seq<Encoding>): nat {
    Min(LongestIds(items), MAX_LENGTH)
  }

  function PadAll(rows: Matrix, width: nat): (m: Matrix)
    ensures |m| == |rows| && forall r | 0 <= r < |rows| :: m[r] == PadRow(rows[r], width)
  {
    seq(|rows|, r requires 0 <= r < |rows| => PadRow(rows[r], width))
  }

  function IdsOf(items: seq<Encoding>): (rows: Matrix)
    ensures |rows| == |items| && forall r | 0 <= r < |items| :: rows[r] == items[r].ids
  {
    seq(|items|, r requires 0 <= r < |items| => items[r].ids)
  }

  function MasksOf(items: seq<Encoding>): (rows: Matrix)
    ensures |rows| == |items| && forall r | 0 <= r < |items| :: rows[r] == items[r].mask
  {
    seq(|items|, r requires 0 <= r < |items| => items[r].mask)
  }

  function TypesOf(items: seq<Encoding>): (rows: Matrix)
    ensures |rows| == |items| && forall r | 0 <= r < |items| :: rows[r] == items[r].types
  {
    seq(|items|, r requires 0 <= r < |items| => items[r].types)
  }

  /** The tensors for a batch, padded to its own width. */
  function Pad(items: seq<Encoding>): Input {
    var w := Width(items);
    Input(PadAll(IdsOf(items), w), PadAll(MasksOf(items), w), PadAll(TypesOf(items), w))
  }

  // ---------------------------------------------------------------------
  // What is assumed of the model
  // ---------------------------------------------------------------------

  /** Row `r` of the output has one vector per position. */
  predicate RowShaped(hidden: Hidden, r: nat, width: nat) {
    && r < |hidden| && |hidden[r]| == width
    && forall t | 0 <= t < width :: |hidden[r][t]| == MODEL_DIMENSIONS
  }

  ghost predicate OutputShaped(session: Session) {
    forall items: seq<Encoding>, r: nat | r < |items| :: RowShaped(session.run(Pad(items)), r, Width(items))
  }

  ghost predicate SameAsAlone(session: Session, items: seq<Encoding>, r: int)
    requires OutputShaped(session) && 0 <= r < |items|
  {
    var item := items[r];
    var together, alone := session.run(Pad(items)), session.run(Pad([item]));
    assert RowShaped(together, r, Width(items)) && RowShaped(alone, 0, Width([item]));
    forall t | 0 <= t < Width([item]) && t < Width(items) && t < |item.mask| && item.mask[t] != 0 ::
      together[r][t] == alone[0][t]
  }

  /** At real tokens the output is what the text would get alone and unpadded. */
  ghost predicate PaddingInvisible(session: Session)
    requires OutputShaped(session)
  {
    forall items: seq<Encoding>, r | 0 <= r < |items| && Aligned(items[r]) :: SameAsAlone(session, items, r)
  }

  // ---------------------------------------------------------------------
  // Masked mean pooling
  // ---------------------------------------------------------------------

  function WeightedSum(output: seq<seq<real>>, mask: seq<int>, d: nat, n: nat): real
    requires n <= |output| && n <= |mask| && d < MODEL_DIMENSIONS
    requires forall t | 0 <= t < n :: |output[t]| == MODEL_DIMENSIONS
  {
    if n == 0 then 0.0
    else WeightedSum(output, mask, d, n - 1) + output[n - 1][d] * mask[n - 1] as real
  }

  function MaskSum(mask: seq<int>, n: nat): real
    requires n <= |mask|
  {
    if n == 0 then 0.0 else MaskSum(mask, n - 1) + mask[n - 1] as real
  }

  function Clamp(x: real): (y: real)
    ensures y > 0.0
  {
    if x < 0.000000001 then 0.000000001 else x
  }

  function Pool(output: seq<seq<real>>, mask: seq<int>): (v: seq<real>)
    requires |output| == |mask|
    requires forall t | 0 <= t < |output| :: |output[t]| == MODEL_DIMENSIONS
    ensures |v| == MODEL_DIMENSIONS
  {
    seq(MODEL_DIMENSIONS, d requires 0 <= d < MODEL_DIMENSIONS =>
      WeightedSum(output, mask, d, |mask|) / Clamp(MaskSum(mask, |mask|)))
  }

  lemma {:induction false} SumsAgree(a: seq<seq<real>>, ma: seq<int>, b: seq<seq<real>>, mb: seq<int>, d: nat, n: nat)
    requires n <= |a| && n <= |ma| && n <= |b| && n <= |mb| && d < MODEL_DIMENSIONS
    requires forall t | 0 <= t < n :: |a[t]| == MODEL_DIMENSIONS && |b[t]| == MODEL_DIMENSIONS
    requires forall t | 0 <= t < n :: ma[t] == mb[t]
    requires forall t | 0 <= t < n && ma[t] != 0 :: a[t] == b[t]
    ensures WeightedSum(a, ma, d, n) == WeightedSum(b, mb, d, n)
    ensures MaskSum(ma, n) == MaskSum(mb, n)
  {
    if n > 0 { SumsAgree(a, ma, b, mb, d, n - 1); }
  }

  lemma {:induction false} PaddingAddsNothing(a: seq<seq<real>>, mask: seq<int>, d: nat, size: nat, n: nat)
    requires size <= n <= |a| && n <= |mask| && d < MODEL_DIMENSIONS
    requires forall t | 0 <= t < n :: |a[t]| == MODEL_DIMENSIONS
    requires forall t | size <= t < n :: mask[t] == 0
    ensures WeightedSum(a, mask, d, n) == WeightedSum(a, mask, d, size)
    ensures MaskSum(mask, n) == MaskSum(mask, size)
  {
    if n > size { PaddingAddsNothing(a, mask, d, size, n - 1); }
  }

  /**
   The pooled vector does not depend on the padded length, nor on what the
   model puts at padded or masked positions.
   */
  lemma PoolIgnoresPadding(a: seq<seq<real>>, ma: seq<int>, b: seq<seq<real>>, mb: seq<int>)
    requires |a| == |ma| >= |mb| == |b|
    requires forall t | 0 <= t < |a| :: |a[t]| == MODEL_DIMENSIONS
    requires forall t | 0 <= t < |b| :: |b[t]| == MODEL_DIMENSIONS
    requires forall t | 0 <= t < |mb| :: ma[t] == mb[t]
    requires forall t | |mb| <= t < |ma| :: ma[t] == 0
    requires forall t | 0 <= t < |mb| && mb[t] != 0 :: a[t] == b[t]
    ensures Pool(a, ma) == Pool(b, mb)
  {
    forall d | 0 <= d < MODEL_DIMENSIONS ensures Pool(a, ma)[d] == Pool(b, mb)[d] {
      PaddingAddsNothing(a, ma, d, |mb|, |ma|);
      SumsAgree(a, ma, b, mb, d, |mb|);
    }
  }

  // ---------------------------------------------------------------------
  // One batch
  // ---------------------------------------------------------------------

  function PooledRow(session: Session, items: seq<Encoding>, r: nat): seq<real>
    requires r < |items|
  {
    var hidden := session.run(Pad(items));
    if RowShaped(hidden, r, Width(items)) then Pool(hidden[r], Pad(items).mask[r]) else []
  }

  function Normalise(v: seq<real>, norm: real): seq<real>
    requires norm > 0.0
  {
    seq(|v|, d requires 0 <= d < |v| => v[d] / norm)
  }

  /** The vector of one text run alone; `None` when its norm is not positive. */
  function Alone(session: Session, item: Encoding): Option<seq<real>> {
    var pooled := PooledRow(session, [item], 0);
    if session.norm(pooled) <= 0.0 then None else Some(Normalise(pooled, session.norm(pooled)))
  }

  /** Each text alone, in order; one failure fails the request. */
  function Each(session: Session, items: seq<Encoding>): Result<seq<seq<real>>, Failure> {
    if items == [] then Ok([])
    else
      match (Each(session, items[..|items| - 1]), Alone(session, items[|items| - 1]))
      case (Ok(vectors), Some(v)) => Ok(vectors + [v])
      case _ => Err(ZeroNorm)
  }

  lemma LongestOfOne(item: Encoding)
    ensures LongestIds([item]) == |item.ids|
  {
    assert [item][..0] == [];
  }

  lemma PooledRowIsAlone(session: Session, items: seq<Encoding>, r: nat)
    requires OutputShaped(session) && PaddingInvisible(session)
    requires r < |items| && Aligned(items[r])
    ensures PooledRow(session, items, r) == PooledRow(session, [items[r]], 0)
    ensures RowShaped(session.run(Pad(items)), r, Width(items))
  {
    hide OutputShaped, PaddingInvisible, Pool, Pad, PadRow;
    var item := items[r];
    LongestOfOne(item);
    ShapesAndSame(session, items, r);
    var a, b := session.run(Pad(items))[r], session.run(Pad([item]))[0];
    MasksPadded(items, r);
    PoolIgnoresPadding(a, Pad(items).mask[r], b, Pad([item]).mask[0]);
  }

  lemma ShapesAndSame(session: Session, items: seq<Encoding>, r: nat)
    requires OutputShaped(session) && PaddingInvisible(session)
    requires r < |items| && Aligned(items[r])
    ensures RowShaped(session.run(Pad(items)), r, Width(items))
    ensures RowShaped(session.run(Pad([items[r]])), 0, Width([items[r]]))
    ensures SameAsAlone(session, items, r)
  {
  }

  lemma MasksPadded(items: seq<Encoding>, r: nat)
    requires r < |items| && Aligned(items[r])
    ensures Width([items[r]]) <= Width(items)
    ensures |Pad(items).mask| == |items| && |Pad(items).mask[r]| == Width(items)
    ensures |Pad([items[r]]).mask| == 1 && |Pad([items[r]]).mask[0]| == Width([items[r]])
    ensures forall t | 0 <= t < Width([items[r]]) ::
              Pad(items).mask[r][t] == Pad([items[r]]).mask[0][t]
              && (Pad(items).mask[r][t] != 0 ==> t < |items[r].mask| && items[r].mask[t] != 0)
    ensures forall t | Width([items[r]]) <= t < Width(items) :: Pad(items).mask[r][t] == 0
  {
    LongestOfOne(items[r]);
  }

  // ---------------------------------------------------------------------
  // The vector of one text
  // ---------------------------------------------------------------------

  /** The output vectors at the positions the mask switches on. */
  function Chosen(output: seq<seq<real>>, mask: seq<int>): (vectors: seq<seq<real>>)
    requires |output| == |mask|
    ensures forall i | 0 <= i < |vectors| :: vectors[i] in output
  {
    if mask == [] then []
    else
      var last := |mask| - 1;
      Chosen(output[..last], mask[..last]) + if mask[last] == 1 then [output[last]] else []
  }

  function ColumnSum(vectors: seq<seq<real>>, d: nat): real
    requires forall i | 0 <= i < |vectors| :: d < |vectors[i]|
  {
    if vectors == [] then 0.0
    else ColumnSum(vectors[..|vectors| - 1], d) + vectors[|vectors| - 1][d]
  }

  lemma {:induction false} SumsOfChosen(output: seq<seq<real>>, mask: seq<int>, d: nat)
    requires |output| == |mask| && d < MODEL_DIMENSIONS
    requires forall t | 0 <= t < |output| :: |output[t]| == MODEL_DIMENSIONS
    requires forall t | 0 <= t < |mask| :: mask[t] == 0 || mask[t] == 1
    ensures WeightedSum(output, mask, d, |mask|) == ColumnSum(Chosen(output, mask), d)
    ensures MaskSum(mask, |mask|) == |Chosen(output, mask)| as real
  {
    if mask != [] {
      hide ColumnSum;
      var last := |mask| - 1;
      var front, fmask := output[..last], mask[..last];
      SumsOfChosen(front, fmask, d);
      FrontSums(output, mask, d);
      if mask[last] == 1 {
        assert Chosen(output, mask) == Chosen(front, fmask) + [output[last]];
        ColumnSumAppend(Chosen(front, fmask), output[last], d);
      } else {
        assert Chosen(output, mask) == Chosen(front, fmask);
      }
    }
  }

  lemma FrontSums(output: seq<seq<real>>, mask: seq<int>, d: nat)
    requires |output| == |mask| && mask != [] && d < MODEL_DIMENSIONS
    requires forall t | 0 <= t < |output| :: |output[t]| == MODEL_DIMENSIONS
    ensures
      var last := |mask| - 1;
      && WeightedSum(output, mask, d, last) == WeightedSum(output[..last], mask[..last], d, last)
      && MaskSum(mask, last) == MaskSum(mask[..last], last)
  {
    hide WeightedSum, MaskSum;
    var last := |mask| - 1;
    SumsAgree(output, mask, output[..last], mask[..last], d, last);
  }

  lemma ColumnSumAppend(vectors: seq<seq<real>>, v: seq<real>, d: nat)
    requires d < |v| && forall i | 0 <= i < |vectors| :: d < |vectors[i]|
    ensures ColumnSum(vectors + [v], d) == ColumnSum(vectors, d) + v[d]
  {
    assert (vectors + [v])[..|vectors|] == vectors;
  }

  /** `p` is the mean of the vectors, and zero when there are none. */
  ghost predicate IsMean(p: seq<real>, vectors: seq<seq<real>>) {
    && |p| == 384
    && (forall i | 0 <= i < |vectors| :: |vectors[i]| == 384)
    && forall d | 0 <= d < 384 ::
         p[d] * |vectors| as real == ColumnSum(vectors, d) && (vectors == [] ==> p[d] == 0.0)
  }

  lemma PoolIsMean(output: seq<seq<real>>, mask: seq<int>)
    requires |output| == |mask|
    requires forall t | 0 <= t < |output| :: |output[t]| == MODEL_DIMENSIONS
    requires forall t | 0 <= t < |mask| :: mask[t] == 0 || mask[t] == 1
    ensures IsMean(Pool(output, mask), Chosen(output, mask))
  {
    hide WeightedSum, MaskSum, ColumnSum, Chosen;
    var p, kept := Pool(output, mask), Chosen(output, mask);
    forall d | 0 <= d < 384
      ensures p[d] * |kept| as real == ColumnSum(kept, d) && (kept == [] ==> p[d] == 0.0)
    {
      SumsOfChosen(output, mask, d);
      NothingChosen(d);
      assert p[d] == ColumnSum(kept, d) / Clamp(|kept| as real);
      Divided(ColumnSum(kept, d), |kept|);
    }
  }

  lemma NothingChosen(d: nat)
    ensures ColumnSum([], d) == 0.0
  {
  }

  lemma Divided(sum: real, count: nat)
    ensures count > 0 ==> sum / Clamp(count as real) * count as real == sum
    ensures count == 0 && sum == 0.0 ==> sum / Clamp(count as real) == 0.0
  {
  }

  /** What the model is shown of one text: its first 512 tokens. */
  function Shown(s: seq<int>): seq<int> {
    if |s| > 512 then s[..512] else s
  }

  lemma PadOne(item: Encoding)
    requires Aligned(item)
    ensures Pad([item]) == Input([Shown(item.ids)], [Shown(item.mask)], [Shown(item.types)])
    ensures Width([item]) == |Shown(item.ids)|
  {
    LongestOfOne(item);
    var w := Width([item]);
    assert PadRow(item.ids, w) == Shown(item.ids);
    assert PadRow(item.mask, w) == Shown(item.mask);
    assert PadRow(item.types, w) == Shown(item.types);
  }

  /**
   The vector of one text: the mean of the model's output over the attended ones
   of its first 512 tokens, unpadded, divided by the norm of that mean; there is
   none when the norm is not positive.
   */
  lemma AloneIsNormalisedMean(session: Session, item: Encoding) returns (mean: seq<real>)
    requires OutputShaped(session) && Aligned(item)
    requires forall t | 0 <= t < |item.mask| :: item.mask[t] == 0 || item.mask[t] == 1
    ensures
      var mask := Shown(item.mask);
      var hidden := session.run(Input([Shown(item.ids)], [mask], [Shown(item.types)]));
      && |hidden| > 0 && |hidden[0]| == |mask|
      && IsMean(mean, Chosen(hidden[0], mask))
    ensures Alone(session, item) == None <==> session.norm(mean) <= 0.0
    ensures Alone(session, item).Some? ==>
      && |Alone(session, item).value| == 384
      && forall d | 0 <= d < 384 :: Alone(session, item).value[d] * session.norm(mean) == mean[d]
  {
    hide Pool, IsMean, PadRow, Chosen;
    PadOne(item);
    ShapedAlone(session, item);
    mean := PooledRow(session, [item], 0);
    var hidden := session.run(Pad([item]));
    PoolIsMean(hidden[0], Shown(item.mask));
  }

  lemma ShapedAlone(session: Session, item: Encoding)
    requires OutputShaped(session)
    ensures RowShaped(session.run(Pad([item])), 0, Width([item]))
  {
  }

  // ---------------------------------------------------------------------
  // A model that attends by mask meets the assumptions
  // ---------------------------------------------------------------------

  /** The sum of the first `n` ids that the mask attends to. */
  function Attended(ids: seq<int>, mask: seq<int>, n: nat): real
    requires n <= |ids| && n <= |mask|
  {
    if n == 0 then 0.0 else Attended(ids, mask, n - 1) + (if mask[n - 1] != 0 then ids[n - 1] as real else 0.0)
  }

  function AttendedRow(input: Input, r: nat): real
    requires r < |input.ids|
  {
    if r < |input.mask| && |input.mask[r]| == |input.ids[r]|
    then Attended(input.ids[r], input.mask[r], |input.ids[r]|) else 0.0
  }

  /** Every output vector carries what its row attends to. */
  function Attend(input: Input): (hidden: Hidden)
    ensures |hidden| == |input.ids|
    ensures forall r | 0 <= r < |hidden| :: |hidden[r]| == |input.ids[r]|
    ensures forall r, t | 0 <= r < |hidden| && 0 <= t < |hidden[r]| ::
              hidden[r][t] == seq(MODEL_DIMENSIONS, d => AttendedRow(input, r))
  {
    seq(|input.ids|, r requires 0 <= r < |input.ids| =>
      seq(|input.ids[r]|, t => seq(MODEL_DIMENSIONS, d => AttendedRow(input, r))))
  }

  lemma {:induction false} AttendedPadded(ids: seq<int>, mask: seq<int>, narrow: nat, wide: nat, n: nat)
    requires |ids| == |mask| && narrow <= wide && n <= wide
    requires narrow < wide ==> |ids| <= narrow
    ensures Attended(PadRow(ids, wide), PadRow(mask, wide), n)
         == Attended(PadRow(ids, narrow), PadRow(mask, narrow), Min(n, narrow))
  {
    if n > 0 { AttendedPadded(ids, mask, narrow, wide, n - 1); }
  }

  /** The assumptions on the model are met by one whose output depends on all that is attended to. */
  lemma AttentionMeetsAssumptions(norm: seq<real> -> real)
    ensures
      var session := Session(Attend, norm);
      OutputShaped(session) && PaddingInvisible(session)
  {
    var session := Session(Attend, norm);
    forall items: seq<Encoding>, r | 0 <= r < |items| && Aligned(items[r]) ensures SameAsAlone(session, items, r) {
      var item := items[r];
      LongestOfOne(item);
      AttendedPadded(item.ids, item.mask, Width([item]), Width(items), Width(items));
      assert AttendedRow(Pad(items), r) == AttendedRow(Pad([item]), 0);
    }
  }

  // ---------------------------------------------------------------------
  // The sidecar itself
  // ---------------------------------------------------------------------

  /** Copies each row into a zeroed buffer. */
  method FillRows(rows: seq<seq<int>>, width: nat) returns (buffer: array2<int>)
    ensures buffer.Length0 == |rows| && buffer.Length1 == width
    ensures forall r, c | 0 <= r < |rows| && 0 <= c < width :: buffer[r, c] == PadRow(rows[r], width)[c]
  {
    buffer := new int[|rows|, width]((r, c) => 0);
    for row := 0 to |rows|
      invariant forall r, c | 0 <= r < row && 0 <= c < width :: buffer[r, c] == PadRow(rows[r], width)[c]
      invariant forall r, c | row <= r < |rows| && 0 <= c < width :: buffer[r, c] == 0
    {
      var size := Min(|rows[row]|, width);
      for c := 0 to size
        invariant forall q, p | 0 <= q < row && 0 <= p < width :: buffer[q, p] == PadRow(rows[q], width)[p]
        invariant forall q, p | row < q < |rows| && 0 <= p < width :: buffer[q, p] == 0
        invariant forall p | 0 <= p < c :: buffer[row, p] == rows[row][p]
        invariant forall p | c <= p < width :: buffer[row, p] == 0
      {
        buffer[row, c] := rows[row][c];
      }
    }
  }

  function RowOf(buffer: array2<int>, r: nat): (row: seq<int>)
    requires r < buffer.Length0
    reads buffer
    ensures |row| == buffer.Length1
  {
    seq(buffer.Length1, c requires 0 <= c < buffer.Length1 reads buffer => buffer[r, c])
  }

  function Contents(buffer: array2<int>): (m: Matrix)
    reads buffer
    ensures |m| == buffer.Length0 && forall r | 0 <= r < buffer.Length0 :: m[r] == RowOf(buffer, r)
  {
    seq(buffer.Length0, r requires 0 <= r < buffer.Length0 reads buffer => RowOf(buffer, r))
  }

  method Fill(rows: seq<seq<int>>, width: nat) returns (m: Matrix)
    ensures m == PadAll(rows, width)
  {
    var buffer := FillRows(rows, width);
    m := Contents(buffer);
    forall r | 0 <= r < |rows| ensures m[r] == PadAll(rows, width)[r] {
      assert forall c | 0 <= c < width :: m[r][c] == buffer[r, c];
    }
  }

  method RunEncodedBatch(session: Session, encoded: seq<Encoding>) returns (result: Result<seq<seq<real>>, Failure>)
    requires OutputShaped(session) && PaddingInvisible(session)
    requires forall i | 0 <= i < |encoded| :: Aligned(encoded[i])
    requires 1 <= |encoded| <= 32
    ensures result == Each(session, encoded)
  {
    hide OutputShaped, PaddingInvisible, PadAll, PadRow, Pool, Normalise, Alone, Width, IdsOf, MasksOf, TypesOf;
    var width := Width(encoded);
    var ids := Fill(IdsOf(encoded), width);
    var attention := Fill(MasksOf(encoded), width);
    var types := Fill(TypesOf(encoded), width);
    var output := session.run(Input(ids, attention, types));
    var vectors: seq<seq<real>> := [];
    for row := 0 to |encoded|
      invariant Each(session, encoded[..row]) == Ok(vectors)
    {
      OneRow(session, encoded, row);
      assert encoded[..row + 1][..row] == encoded[..row];
      var pooled := Pool(output[row], attention[row]);
      if session.norm(pooled) <= 0.0 {
        EachFails(session, encoded, row + 1);
        return Err(ZeroNorm);
      }
      vectors := vectors + [Normalise(pooled, session.norm(pooled))];
    }
    assert encoded[..|encoded|] == encoded;
    return Ok(vectors);
  }

  lemma OneRow(session: Session, items: seq<Encoding>, r: nat)
    requires OutputShaped(session) && PaddingInvisible(session)
    requires r < |items| && Aligned(items[r])
    ensures
      var hidden, masks := session.run(Pad(items)), Pad(items).mask;
      && RowShaped(hidden, r, Width(items)) && r < |masks| && |masks[r]| == Width(items)
      && var pooled := Pool(hidden[r], masks[r]);
      Alone(session, items[r]) ==
        if session.norm(pooled) <= 0.0 then None else Some(Normalise(pooled, session.norm(pooled)))
  {
    hide OutputShaped, PaddingInvisible, Pool, Normalise, PadRow;
    PooledRowIsAlone(session, items, r);
  }

  lemma {:induction false} EachFails(session: Session, items: seq<Encoding>, n: nat)
    requires n <= |items| && Each(session, items[..n]).Err?
    ensures Each(session, items) == Err(ZeroNorm)
    decreases |items|
  {
    hide Alone;
    if n == |items| {
      assert items[..n] == items;
    } else {
      assert items[..|items| - 1][..n] == items[..n];
      EachFails(session, items[..|items| - 1], n);
    }
  }

  lemma {:induction false} EachAppend(session: Session, a: seq<Encoding>, b: seq<Encoding>)
    ensures Each(session, a + b) == match (Each(session, a), Each(session, b))
                                    case (Ok(x), Ok(y)) => Ok(x + y)
                                    case _ => Err(ZeroNorm)
    decreases |b|
  {
    hide Alone;
    if b == [] {
      assert a + b == a;
      EachOutcome(session, a);
      if Each(session, a).Ok? { assert Each(session, a).value + [] == Each(session, a).value; }
    } else {
      assert (a + b)[..|a + b| - 1] == a + b[..|b| - 1];
      var front, last := b[..|b| - 1], b[|b| - 1];
      EachAppend(session, a, front);
      assert (a + b)[|a + b| - 1] == last;
      match (Each(session, a), Each(session, front), Alone(session, last)) {
        case (Ok(x), Ok(y), Some(v)) => assert x + y + [v] == x + (y + [v]);
        case _ =>
      }
    }
  }

  lemma {:induction false} EachOutcome(session: Session, items: seq<Encoding>)
    ensures Each(session, items).Err? ==> Each(session, items) == Err(ZeroNorm)
  {
  }

  /** Batching is invisible: the request equals embedding each text alone. */
  method EmbedEncoded(session: Session, encoded: seq<Encoding>) returns (result: Result<seq<seq<real>>, Failure>)
    requires OutputShaped(session) && PaddingInvisible(session)
    requires forall i | 0 <= i < |encoded| :: Aligned(encoded[i])
    ensures result == Each(session, encoded)
  {
    hide OutputShaped, PaddingInvisible, Alone;
    if encoded == [] {
      return Ok([]);
    }
    var vectors: seq<seq<real>> := [];
    var start := 0;
    while start < |encoded|
      invariant 0 <= start <= |encoded|
      invariant Each(session, encoded[..start]) == Ok(vectors)
      decreases |encoded| - start
    {
      var stop := Min(start + MAX_EMBED_BATCH_SIZE, |encoded|);
      var batch := encoded[start..stop];
      var rows := RunEncodedBatch(session, batch);
      EachAppend(session, encoded[..start], batch);
      assert encoded[..start] + batch == encoded[..stop];
      if rows.Err? {
        EachFails(session, encoded, stop);
        return rows;
      }
      vectors := vectors + rows.value;
      start := stop;
    }
    assert encoded[..|encoded|] == encoded;
    return Ok(vectors);
  }

  lemma {:induction false} EachSucceeds(session: Session, items: seq<Encoding>)
    ensures Each(session, items).Ok? <==> forall i | 0 <= i < |items| :: Alone(session, items[i]).Some?
    ensures Each(session, items).Ok? ==>
      && |Each(session, items).value| == |items|
      && forall i | 0 <= i < |items| :: Alone(session, items[i]) == Some(Each(session, items).value[i])
  {
    hide Alone;
    if items != [] {
      var last := |items| - 1;
      EachSucceeds(session, items[..last]);
      assert forall i | 0 <= i < last :: items[..last][i] == items[i];
    }
  }

  /** The i-th vector is that of the i-th prefixed text alone; one text without a vector fails all. */
  ghost predicate EmbedsEach(session: Session, tokenize: string -> Encoding, prefix: string, texts: seq<string>,
                             result: Result<seq<seq<real>>, Failure>)
  {
    && (result.Ok? <==> forall i | 0 <= i < |texts| :: Alone(session, tokenize(prefix + texts[i])).Some?)
    && (result.Err? ==> result == Err(ZeroNorm))
    && (result.Ok? ==>
          && |result.value| == |texts|
          && forall i | 0 <= i < |texts| :: Alone(session, tokenize(prefix + texts[i])) == Some(result.value[i]))
  }

  /**
   `embed`: on success the i-th vector is that of the i-th text alone, and the
   request fails exactly on a bad mode or when some text alone would fail.
   */
  method Embed(session: Session, tokenize: string -> Encoding, texts: seq<string>, mode: string)
      returns (result: Result<seq<seq<real>>, Failure>)
    requires OutputShaped(session) && PaddingInvisible(session)
    requires forall text :: Aligned(tokenize(text))
    ensures result == Err(ModeInvalid) <==> mode != "query" && mode != "passage"
    ensures mode == "query" ==> EmbedsEach(session, tokenize, "query: ", texts, result)
    ensures mode == "passage" ==> EmbedsEach(session, tokenize, "passage: ", texts, result)
  {
    hide OutputShaped, PaddingInvisible, Alone, Each;
    if mode != "query" && mode != "passage" {
      return Err(ModeInvalid);
    }
    var prefix := if mode == "query" then "query: " else "passage: ";
    var encoded := seq(|texts|, i requires 0 <= i < |texts| => tokenize(prefix + texts[i]));
    assert forall i | 0 <= i < |texts| :: encoded[i] == tokenize(prefix + texts[i]);
    result := EmbedEncoded(session, encoded);
    EachSucceeds(session, encoded);
    EachOutcome(session, encoded);
    assert EmbedsEach(session, tokenize, prefix, texts, result);
  }
}
