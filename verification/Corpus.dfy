/**
 The crash-resumable embedding file: fixed-width rows appended batch by batch,
 resumed at the row after the last whole one.
 */
module Corpus {
  import opened Prelude

  type Byte = b: int | 0 <= b < 256

  /**
   The embedding service, deterministic per chunk, with the normalisation and
   little-endian packing applied to each vector before it is written.
   */
  datatype Embedder = Embedder(vector: string -> seq<real>, pack: seq<real> -> seq<Byte>)
  {
    /** Every component packs into four bytes. */
    ghost predicate PacksFloats() {
      forall v: seq<real> :: |pack(v)| == 4 * |v|
    }

    function Row(chunk: string): seq<Byte> {
      pack(vector(chunk))
    }

    /** The concatenated rows of `chunks`. */
    function Encode(chunks: seq<string>): seq<Byte> {
      if chunks == [] then []
      else Encode(chunks[..|chunks| - 1]) + Row(chunks[|chunks| - 1])
    }

    /** The row width the probe finds, in components; any width does when there is nothing to probe. */
    function Dim(all: seq<string>): nat {
      if all == [] then 1 else |vector(all[0])|
    }

    predicate Uniform(chunks: seq<string>, dim: nat) {
      forall i | 0 <= i < |chunks| :: |vector(chunks[i])| == dim
    }
  }

  /**
   One run: its arguments, and what goes wrong.  `answered` batch requests
   succeed before one raises; the process is killed before it touches the file,
   or once `cut` bytes have reached it.
   */
  datatype Plan = Plan(limit: int, batch: int, probeFails: bool, killedEarly: bool, answered: Option<nat>, cut: Option<nat>)

  datatype Outcome =
    | NothingToDo
    | ProbeFailed
    | BadBatchSize
    | EmbedFailed(start: nat)
    | RaggedRows(start: nat)
    | Killed
    | Done(count: nat)

  /** `chunks[:limit]` when the limit is not zero; a negative limit counts from the end. */
  function Requested(all: seq<string>, limit: int): (chunks: seq<string>)
    ensures chunks <= all
  {
    if limit == 0 || limit >= |all| then all
    else if limit > 0 then all[..limit]
    else all[..Max(0, |all| + limit)]
  }

  /** How many chunks a limit asks for; always the first ones. */
  lemma RequestedCount(all: seq<string>, limit: int)
    ensures Requested(all, limit) <= all
    ensures limit == 0 ==> |Requested(all, limit)| == |all|
    ensures limit > 0 ==> |Requested(all, limit)| == if limit <= |all| then limit else |all|
    ensures limit < 0 ==> |Requested(all, limit)| == if -limit <= |all| then |all| + limit else 0
  {
  }

  function Bytes(content: Option<seq<Byte>>): seq<Byte> {
    match content case Some(bytes) => bytes case None => []
  }

  /** `k * w`, by repeated addition. */
  function Times(k: nat, w: nat): nat {
    if k == 0 then 0 else Times(k - 1, w) + w
  }

  /** `n / w`, by repeated subtraction. */
  function Quotient(n: nat, w: nat): nat
    requires w > 0
  {
    if n < w then 0 else 1 + Quotient(n - w, w)
  }

  lemma {:induction false} TimesIsProduct(k: nat, w: nat)
    ensures Times(k, w) == k * w
  {
    if k > 0 {
      TimesIsProduct(k - 1, w);
      assert (k - 1) * w + w == k * w;
    }
  }

  /** The source's floor division, and what it leaves. */
  lemma {:induction false} QuotientIsDivision(n: nat, w: nat)
    requires w > 0
    ensures Quotient(n, w) == n / w
    ensures Times(n / w, w) == n / w * w == n - n % w
    ensures Times(Quotient(n, w), w) <= n < Times(Quotient(n, w), w) + w
  {
    TimesIsProduct(n / w, w);
    if n >= w {
      QuotientIsDivision(n - w, w);
      DivideStep(n, w);
    }
  }

  lemma DivideStep(n: nat, w: nat)
    requires 0 < w <= n
    ensures n / w == 1 + (n - w) / w
  {
    var q, r := (n - w) / w, (n - w) % w;
    assert n == (q + 1) * w + r;
    DivisionUnique(n, w, q + 1, r);
  }

  lemma DivisionUnique(n: nat, w: nat, q: nat, r: nat)
    requires w > 0 && r < w && n == q * w + r
    ensures n / w == q
  {
    var d: int := n / w - q;
    assert n == n / w * w + n % w;
    assert d * w == r - n % w;
    MultipleGrows(d, w);
  }

  lemma MultipleGrows(d: int, w: nat)
    ensures d >= 1 ==> d * w >= w
    ensures d <= -1 ==> d * w + w <= 0
  {
  }

  function Rows(content: Option<seq<Byte>>, w: nat): nat
    requires w > 0
  {
    Quotient(|Bytes(content)|, w)
  }

  /** The file without its torn last row. */
  function WholeRows(content: Option<seq<Byte>>, w: nat): seq<Byte>
    requires w > 0
  {
    QuotientIsDivision(|Bytes(content)|, w);
    Bytes(content)[..Times(Rows(content, w), w)]
  }

  /** How the append loop may leave a file that held `kept`, starting at row `done`. */
  ghost predicate AppendEffect(e: Embedder, chunks: seq<string>, batch: int, dim: nat, done: nat,
                               kept: seq<Byte>, outcome: Outcome, after: seq<Byte>)
    requires done <= |chunks|
  {
    match outcome
    case EmbedFailed(start) =>
      && done <= start < |chunks|
      && e.Uniform(chunks[done..start], dim)
      && after == kept + e.Encode(chunks[done..start])
    case RaggedRows(start) =>
      && done <= start < |chunks| && batch > 0
      && e.Uniform(chunks[done..start], dim)
      && !e.Uniform(chunks[start..Min(start + batch, |chunks|)], dim)
      && after == kept + e.Encode(chunks[done..start])
    case Killed =>
      if batch <= 0 then after == kept
      else exists stop, part | done <= stop <= |chunks| && part <= e.Encode(chunks[done..stop]) ::
        e.Uniform(chunks[done..stop], dim) && after == kept + part
    case Done(_) =>
      if batch < 0 then after == kept
      else e.Uniform(chunks[done..], dim) && after == kept + e.Encode(chunks[done..])
    case _ => false
  }

  /** What one run may do to the file, for a file of any origin. */
  ghost predicate RunEffect(e: Embedder, all: seq<string>, plan: Plan, outcome: Outcome,
                            before: Option<seq<Byte>>, after: Option<seq<Byte>>)
    requires e.Dim(all) > 0
  {
    var dim := e.Dim(all);
    var chunks := Requested(all, plan.limit);
    var kept := WholeRows(before, 4 * dim);
    var done := Min(Rows(before, 4 * dim), |chunks|);
    match outcome
    case NothingToDo => chunks == [] && after == before
    case ProbeFailed => plan.probeFails && after == before
    case BadBatchSize => plan.batch == 0 && after == Some(kept)
    case Killed =>
      after == before || (after.Some? && AppendEffect(e, chunks, plan.batch, dim, done, kept, Killed, after.value))
    case _ =>
      && plan.batch != 0
      && after.Some?
      && AppendEffect(e, chunks, plan.batch, dim, done, kept, outcome, after.value)
      && (outcome.Done? ==> outcome.count == Rows(after, 4 * dim))
  }

  /** A run in which nothing external fails. */
  predicate Undisturbed(plan: Plan) {
    !plan.probeFails && !plan.killedEarly && plan.answered.None? && plan.cut.None?
  }

  class CorpusFile {
    var content: Option<seq<Byte>>

    constructor ()
      ensures content == None
    {
      content := None;
    }

    /** Appends as much of `bytes` as reaches the file before the kill. */
    method Append(bytes: seq<Byte>, budget: Option<nat>) returns (alive: bool, left: Option<nat>)
      requires content.Some?
      modifies this
      ensures content.Some?
      ensures alive ==> content.value == old(content.value) + bytes
      ensures !alive ==> exists part | part <= bytes :: content.value == old(content.value) + part
      ensures budget.None? ==> alive && left.None?
    {
      if budget.Some? && budget.value < |bytes| {
        content := Some(content.value + bytes[..budget.value]);
        return false, Some(0);
      }
      content := Some(content.value + bytes);
      return true, if budget.Some? then Some(budget.value - |bytes|) else None;
    }

    /** Drops a torn last row and opens the file at the first missing one of `wanted`. */
    method Resume(rowBytes: nat, wanted: nat) returns (done: nat)
      requires rowBytes > 0 && wanted > 0
      modifies this
      ensures done == Min(Rows(old(content), rowBytes), wanted)
      ensures content == Some(WholeRows(old(content), rowBytes))
    {
      done := 0;
      if content.Some? {
        var size := |content.value|;
        QuotientIsDivision(size, rowBytes);
        done := size / rowBytes;
        assert done == Rows(content, rowBytes) && done * rowBytes == Times(done, rowBytes);
        if size % rowBytes != 0 {
          content := Some(content.value[..done * rowBytes]);
        }
        done := Min(done, wanted);
      }
      assert Bytes(content) == WholeRows(old(content), rowBytes);
      if done == 0 {
        assert Rows(old(content), rowBytes) == 0;
        content := Some([]);
      }
    }

    /** Writes the rows of one batch. */
    method WriteBatch(e: Embedder, batch: seq<string>, budget: Option<nat>) returns (alive: bool, left: Option<nat>)
      requires content.Some?
      modifies this
      ensures content.Some?
      ensures alive ==> content.value == old(content.value) + e.Encode(batch)
      ensures !alive ==>
        exists n, part | 0 <= n <= |batch| && part <= e.Encode(batch[..n]) :: content.value == old(content.value) + part
      ensures budget.None? ==> alive && left.None?
    {
      left := budget;
      for i := 0 to |batch|
        invariant content.Some? && content.value == old(content.value) + e.Encode(batch[..i])
        invariant budget.None? ==> left.None?
      {
        ghost var before := content.value;
        alive, left := Append(e.Row(batch[i]), left);
        assert batch[..i + 1][..i] == batch[..i];
        if !alive {
          ghost var part :| part <= e.Row(batch[i]) && content.value == before + part;
          assert e.Encode(batch[..i]) + part <= e.Encode(batch[..i + 1]);
          assert content.value == old(content.value) + (e.Encode(batch[..i]) + part);
          return;
        }
      }
      assert batch[..|batch|] == batch;
      alive := true;
    }

    /** The append loop; `stopped` is `None` when it ran to the end. */
    method EmbedRest(e: Embedder, chunks: seq<string>, plan: Plan, dim: nat, done: nat)
        returns (stopped: Option<Outcome>)
      requires content.Some? && done <= |chunks| && plan.batch != 0
      modifies this
      ensures content.Some?
      ensures stopped.Some? ==>
        && AppendEffect(e, chunks, plan.batch, dim, done, old(content.value), stopped.value, content.value)
        && (stopped.value.EmbedFailed? || stopped.value.RaggedRows? || stopped.value.Killed?)
      ensures stopped.None? ==>
        forall count: nat ::
          AppendEffect(e, chunks, plan.batch, dim, done, old(content.value), Done(count), content.value)
      ensures Undisturbed(plan) && stopped.Some? ==> stopped.value.RaggedRows?
    {
      hide Embedder.Encode, Embedder.Row, Embedder.Uniform, Written, AppendEffect;
      var budget := plan.cut;
      var answered := plan.answered;
      var start := done;
      ghost var kept := content.value;
      NothingWritten(e, chunks, dim, done, kept);
      while start < |chunks| && plan.batch > 0
        invariant done <= start <= |chunks|
        invariant content.Some? && Written(e, chunks, dim, done, start, kept, content.value)
        invariant plan.batch < 0 ==> start == done
        invariant plan.cut.None? ==> budget.None?
        invariant plan.answered.None? ==> answered.None?
        decreases |chunks| - start
      {
        var stop := Min(start + plan.batch, |chunks|);
        var batch := chunks[start..stop];
        if answered == Some(0) {
          StoppedEffect(e, chunks, plan.batch, dim, done, start, kept, content.value);
          return Some(EmbedFailed(start));
        }
        answered := if answered.Some? then Some(answered.value - 1) else None;
        if !e.Uniform(batch, dim) {
          StoppedEffect(e, chunks, plan.batch, dim, done, start, kept, content.value);
          return Some(RaggedRows(start));
        }
        var alive: bool;
        ghost var before := content.value;
        alive, budget := WriteBatch(e, batch, budget);
        if !alive {
          KilledEffect(e, chunks, plan.batch, dim, done, start, stop, kept, before, content.value);
          return Some(Killed);
        }
        BatchWritten(e, chunks, dim, done, start, stop, kept, before);
        start := stop;
      }
      FinishedEffect(e, chunks, plan.batch, dim, done, start, kept, content.value);
      return None;
    }

    method Run(e: Embedder, all: seq<string>, plan: Plan) returns (outcome: Outcome)
      requires e.Dim(all) > 0
      modifies this
      ensures RunEffect(e, all, plan, outcome, old(content), content)
      ensures Undisturbed(plan) ==> !outcome.ProbeFailed? && !outcome.EmbedFailed? && !outcome.Killed?
    {
      hide AppendEffect, WholeRows, Times, Embedder.Encode, Embedder.Row, Embedder.Uniform;
      var chunks := Requested(all, plan.limit);
      if chunks == [] {
        return NothingToDo;
      }
      if plan.probeFails {
        return ProbeFailed;
      }
      if plan.killedEarly {
        return Killed;
      }
      var dim := |e.vector(chunks[0])|;
      assert dim == e.Dim(all);
      var done := Resume(dim * 4, |chunks|);
      if plan.batch == 0 {
        return BadBatchSize;
      }
      var stopped := EmbedRest(e, chunks, plan, dim, done);
      if stopped.Some? {
        return stopped.value;
      }
      QuotientIsDivision(|content.value|, dim * 4);
      return Done(|content.value| / (dim * 4));
    }
  }

  // ---------------------------------------------------------------------
  // The append loop
  // ---------------------------------------------------------------------

  /** Between batches: the file holds `kept` and the rows from `done` to `start`. */
  ghost predicate Written(e: Embedder, chunks: seq<string>, dim: nat, done: nat, start: nat,
                          kept: seq<Byte>, bytes: seq<Byte>)
    requires done <= start <= |chunks|
  {
    e.Uniform(chunks[done..start], dim) && bytes == kept + e.Encode(chunks[done..start])
  }

  lemma NothingWritten(e: Embedder, chunks: seq<string>, dim: nat, done: nat, kept: seq<Byte>)
    requires done <= |chunks|
    ensures Written(e, chunks, dim, done, done, kept, kept)
  {
  }

  lemma UniformAppend(e: Embedder, a: seq<string>, b: seq<string>, dim: nat)
    requires e.Uniform(a, dim) && e.Uniform(b, dim)
    ensures e.Uniform(a + b, dim)
  {
  }

  lemma BatchWritten(e: Embedder, chunks: seq<string>, dim: nat, done: nat, start: nat, stop: nat,
                     kept: seq<Byte>, bytes: seq<Byte>)
    requires done <= start <= stop <= |chunks|
    requires Written(e, chunks, dim, done, start, kept, bytes)
    requires e.Uniform(chunks[start..stop], dim)
    ensures Written(e, chunks, dim, done, stop, kept, bytes + e.Encode(chunks[start..stop]))
  {
    hide Embedder.Encode, Embedder.Row, Embedder.Uniform;
    var a, b := chunks[done..start], chunks[start..stop];
    EncodeAppend(e, a, b);
    UniformAppend(e, a, b, dim);
    assert a + b == chunks[done..stop];
    assert kept + e.Encode(a) + e.Encode(b) == kept + (e.Encode(a) + e.Encode(b));
  }

  lemma StoppedEffect(e: Embedder, chunks: seq<string>, batch: int, dim: nat, done: nat, start: nat,
                      kept: seq<Byte>, bytes: seq<Byte>)
    requires done <= start < |chunks| && batch > 0
    requires Written(e, chunks, dim, done, start, kept, bytes)
    ensures AppendEffect(e, chunks, batch, dim, done, kept, EmbedFailed(start), bytes)
    ensures e.Uniform(chunks[start..Min(start + batch, |chunks|)], dim)
            || AppendEffect(e, chunks, batch, dim, done, kept, RaggedRows(start), bytes)
  {
  }

  lemma FinishedEffect(e: Embedder, chunks: seq<string>, batch: int, dim: nat, done: nat, start: nat,
                       kept: seq<Byte>, bytes: seq<Byte>)
    requires done <= start <= |chunks|
    requires if batch < 0 then start == done else start == |chunks|
    requires Written(e, chunks, dim, done, start, kept, bytes)
    ensures forall count: nat :: AppendEffect(e, chunks, batch, dim, done, kept, Done(count), bytes)
  {
    if batch < 0 {
      assert chunks[done..done] == [];
    } else {
      assert chunks[done..|chunks|] == chunks[done..];
    }
  }

  lemma UniformPrefix(e: Embedder, chunks: seq<string>, n: nat, dim: nat)
    requires e.Uniform(chunks, dim) && n <= |chunks|
    ensures e.Uniform(chunks[..n], dim)
  {
  }

  lemma KilledEffect(e: Embedder, chunks: seq<string>, size: int, dim: nat, done: nat, start: nat, stop: nat,
                     kept: seq<Byte>, before: seq<Byte>, bytes: seq<Byte>)
    requires done <= start <= stop <= |chunks| && size > 0
    requires Written(e, chunks, dim, done, start, kept, before)
    requires e.Uniform(chunks[start..stop], dim)
    requires exists n, part | 0 <= n <= stop - start && part <= e.Encode(chunks[start..stop][..n]) ::
               bytes == before + part
    ensures AppendEffect(e, chunks, size, dim, done, kept, Killed, bytes)
  {
    hide Embedder.Encode, Embedder.Row, Embedder.Uniform;
    var n, part :|
      0 <= n <= stop - start && part <= e.Encode(chunks[start..stop][..n]) && bytes == before + part;
    var last := start + n;
    UniformPrefix(e, chunks[start..stop], n, dim);
    assert chunks[start..stop][..n] == chunks[start..last];
    BatchWritten(e, chunks, dim, done, start, last, kept, before);
    var a, b := e.Encode(chunks[done..start]), e.Encode(chunks[start..last]);
    assert kept + e.Encode(chunks[done..last]) == kept + (a + b);
    assert e.Encode(chunks[done..last]) == a + b by {
      EncodeAppend(e, chunks[done..start], chunks[start..last]);
      assert chunks[done..start] + chunks[start..last] == chunks[done..last];
    }
    assert a + part <= a + b;
    assert bytes == kept + (a + part);
  }

  // ---------------------------------------------------------------------
  // Row arithmetic
  // ---------------------------------------------------------------------

  lemma {:induction false} EncodeLength(e: Embedder, chunks: seq<string>, dim: nat)
    requires e.PacksFloats() && e.Uniform(chunks, dim)
    ensures |e.Encode(chunks)| == Times(|chunks|, 4 * dim)
  {
    if chunks != [] {
      var front, last := chunks[..|chunks| - 1], chunks[|chunks| - 1];
      EncodeLength(e, front, dim);
      assert |e.vector(last)| == dim;
      assert |e.Row(last)| == 4 * dim;
    }
  }

  lemma {:induction false} EncodeAppend(e: Embedder, a: seq<string>, b: seq<string>)
    ensures e.Encode(a + b) == e.Encode(a) + e.Encode(b)
  {
    if b == [] {
      assert a + b == a;
    } else {
      var front, last := b[..|b| - 1], b[|b| - 1];
      EncodeAppend(e, a, front);
      assert (a + b)[..|a + b| - 1] == a + front;
    }
  }

  lemma EncodeSplit(e: Embedder, chunks: seq<string>, k: nat, n: nat)
    requires k <= n <= |chunks|
    ensures e.Encode(chunks[..n]) == e.Encode(chunks[..k]) + e.Encode(chunks[k..n])
  {
    EncodeAppend(e, chunks[..k], chunks[k..n]);
    assert chunks[..k] + chunks[k..n] == chunks[..n];
  }

  /** The usable chunks: those before the first whose vector has another width. */
  ghost function Usable(e: Embedder, all: seq<string>): (n: nat)
    ensures n <= |all|
    ensures e.Uniform(all[..n], e.Dim(all))
    ensures n < |all| ==> |e.vector(all[n])| != e.Dim(all)
  {
    FirstRagged(e, all, 0)
  }

  ghost function FirstRagged(e: Embedder, all: seq<string>, k: nat): (n: nat)
    requires k <= |all|
    requires e.Uniform(all[..k], e.Dim(all))
    ensures k <= n <= |all|
    ensures e.Uniform(all[..n], e.Dim(all))
    ensures n < |all| ==> |e.vector(all[n])| != e.Dim(all)
    decreases |all| - k
  {
    if k == |all| || |e.vector(all[k])| != e.Dim(all) then k else FirstRagged(e, all, k + 1)
  }

  /** The file is a prefix, cut anywhere, of the encoding of the usable chunks. */
  ghost predicate PrefixOfEncoding(e: Embedder, all: seq<string>, content: Option<seq<Byte>>)
  {
    Bytes(content) <= e.Encode(all[..Usable(e, all)])
  }

  lemma {:induction false} QuotientOfTimes(k: nat, w: nat, r: nat)
    requires w > 0 && r < w
    ensures Quotient(Times(k, w) + r, w) == k
  {
    if k > 0 { QuotientOfTimes(k - 1, w, r); }
  }

  lemma {:induction false} QuotientMonotone(a: nat, b: nat, w: nat)
    requires w > 0 && a <= b
    ensures Quotient(a, w) <= Quotient(b, w)
  {
    if b >= w { QuotientMonotone(if a < w then 0 else a - w, b - w, w); }
  }

  /** The whole rows of such a file are exactly the encoding of the first chunks. */
  lemma WholeRowsAreEncoded(e: Embedder, all: seq<string>, content: Option<seq<Byte>>)
    requires e.PacksFloats() && e.Dim(all) > 0
    requires PrefixOfEncoding(e, all, content)
    ensures
      var w := 4 * e.Dim(all);
      var k := Rows(content, w);
      k <= Usable(e, all) && WholeRows(content, w) == e.Encode(all[..k])
  {
    var dim := e.Dim(all);
    var w := 4 * dim;
    var n := Usable(e, all);
    var k := Rows(content, w);
    EncodeLength(e, all[..n], dim);
    QuotientMonotone(|Bytes(content)|, Times(n, w), w);
    QuotientOfTimes(n, w, 0);
    EncodeSplit(e, all[..n], k, n);
    assert all[..n][..k] == all[..k] && all[..n][..n] == all[..n];
    EncodeLength(e, all[..k], dim);
    QuotientIsDivision(|Bytes(content)|, w);
  }

  lemma EncodedPrefix(e: Embedder, all: seq<string>, stop: nat, part: seq<Byte>)
    requires e.PacksFloats() && e.Dim(all) > 0
    requires stop <= Usable(e, all) && part <= e.Encode(all[..stop])
    ensures part <= e.Encode(all[..Usable(e, all)])
  {
    var n := Usable(e, all);
    EncodeSplit(e, all, stop, n);
  }

  /** Chunks that extend the usable rows with the right width are usable. */
  lemma UniformIsUsable(e: Embedder, all: seq<string>, done: nat, stop: nat)
    requires done <= stop <= |all|
    requires done <= Usable(e, all)
    requires e.Uniform(all[done..stop], e.Dim(all))
    ensures stop <= Usable(e, all)
  {
  }

  /** What a run keeps and appends, in terms of whole rows. */
  lemma KeptPlusAppended(e: Embedder, all: seq<string>, plan: Plan, before: Option<seq<Byte>>, stop: nat)
    requires e.PacksFloats() && e.Dim(all) > 0
    requires PrefixOfEncoding(e, all, before)
    requires
      var dim := e.Dim(all);
      var chunks := Requested(all, plan.limit);
      var done := Min(Rows(before, 4 * dim), |chunks|);
      done <= stop <= |chunks| && e.Uniform(chunks[done..stop], dim)
    ensures
      var dim := e.Dim(all);
      var chunks := Requested(all, plan.limit);
      var k := Rows(before, 4 * dim);
      && Max(k, stop) <= Usable(e, all)
      && e.Encode(all[..Max(k, stop)])
         == WholeRows(before, 4 * dim) + e.Encode(chunks[Min(k, |chunks|)..stop])
  {
    var dim := e.Dim(all);
    var chunks := Requested(all, plan.limit);
    var k := Rows(before, 4 * dim);
    WholeRowsAreEncoded(e, all, before);
    if k <= |chunks| {
      assert chunks[k..stop] == all[k..stop];
      UniformIsUsable(e, all, k, stop);
      EncodeSplit(e, all, k, stop);
    } else {
      assert chunks[|chunks|..stop] == [];
    }
  }

  lemma RowsOfEncoded(e: Embedder, all: seq<string>, n: nat)
    requires e.PacksFloats() && e.Dim(all) > 0 && n <= Usable(e, all)
    ensures Rows(Some(e.Encode(all[..n])), 4 * e.Dim(all)) == n
    ensures PrefixOfEncoding(e, all, Some(e.Encode(all[..n])))
  {
    var dim := e.Dim(all);
    assert e.Uniform(all[..n], dim) by {
      forall i | 0 <= i < n ensures |e.vector(all[..n][i])| == dim {
        assert all[..Usable(e, all)][i] == all[i];
      }
    }
    EncodeLength(e, all[..n], dim);
    QuotientOfTimes(n, 4 * dim, 0);
    EncodedPrefix(e, all, n, e.Encode(all[..n]));
  }

  // ---------------------------------------------------------------------
  // One run, and any history of runs
  // ---------------------------------------------------------------------

  /** The file is exactly the encoding of the first `n` chunks. */
  ghost predicate HoldsRows(e: Embedder, all: seq<string>, content: Option<seq<Byte>>, n: nat)
  {
    n <= Usable(e, all) && content == Some(e.Encode(all[..n]))
  }

  /**
   One run on a file left by earlier runs, however it ends: the file stays a
   prefix of the one true encoding, no whole row is lost, and a run that ends
   by itself leaves whole rows only, as many as its outcome says.
   */
  ghost predicate RunKeepsPromise(e: Embedder, all: seq<string>, plan: Plan, outcome: Outcome,
                                  before: Option<seq<Byte>>, after: Option<seq<Byte>>)
    requires e.Dim(all) > 0
  {
    var w := 4 * e.Dim(all);
    var rows := Rows(before, w);
    var requested := |Requested(all, plan.limit)|;
    && PrefixOfEncoding(e, all, after)
    && rows <= Rows(after, w) <= Max(rows, requested)
    && (match outcome
        case Done(count) =>
          && count == (if plan.batch < 0 then rows else Max(rows, requested))
          && HoldsRows(e, all, after, count)
        case EmbedFailed(start) =>
          Min(rows, requested) <= start < requested && HoldsRows(e, all, after, Max(rows, start))
        case RaggedRows(start) =>
          && Min(rows, requested) <= start <= Usable(e, all) < requested
          && HoldsRows(e, all, after, Max(rows, start))
        case BadBatchSize => HoldsRows(e, all, after, rows)
        case Killed => true
        case _ => after == before)
  }

  lemma RowsBetween(e: Embedder, all: seq<string>, k: nat, n: nat, bytes: seq<Byte>)
    requires e.PacksFloats() && e.Dim(all) > 0
    requires k <= n <= Usable(e, all)
    requires e.Encode(all[..k]) <= bytes <= e.Encode(all[..n])
    ensures PrefixOfEncoding(e, all, Some(bytes))
    ensures k <= Rows(Some(bytes), 4 * e.Dim(all)) <= n
  {
    var w := 4 * e.Dim(all);
    RowsOfEncoded(e, all, k);
    RowsOfEncoded(e, all, n);
    EncodedPrefix(e, all, n, bytes);
    QuotientMonotone(|e.Encode(all[..k])|, |bytes|, w);
    QuotientMonotone(|bytes|, |e.Encode(all[..n])|, w);
  }

  lemma KilledRun(e: Embedder, all: seq<string>, plan: Plan, before: Option<seq<Byte>>,
                  after: Option<seq<Byte>>, stop: nat, part: seq<Byte>)
    requires e.PacksFloats() && e.Dim(all) > 0
    requires PrefixOfEncoding(e, all, before)
    requires
      var dim := e.Dim(all);
      var chunks := Requested(all, plan.limit);
      var done := Min(Rows(before, 4 * dim), |chunks|);
      && done <= stop <= |chunks| && part <= e.Encode(chunks[done..stop])
      && e.Uniform(chunks[done..stop], dim) && after == Some(WholeRows(before, 4 * dim) + part)
    ensures RunKeepsPromise(e, all, plan, Killed, before, after)
  {
    var k := Rows(before, 4 * e.Dim(all));
    KeptPlusAppended(e, all, plan, before, stop);
    WholeRowsAreEncoded(e, all, before);
    RowsBetween(e, all, k, Max(k, stop), after.value);
  }

  /** A run that stops after writing the rows up to `stop`. */
  lemma StoppedRun(e: Embedder, all: seq<string>, plan: Plan, before: Option<seq<Byte>>,
                   after: Option<seq<Byte>>, stop: nat)
    requires e.PacksFloats() && e.Dim(all) > 0
    requires PrefixOfEncoding(e, all, before)
    requires
      var dim := e.Dim(all);
      var chunks := Requested(all, plan.limit);
      var done := Min(Rows(before, 4 * dim), |chunks|);
      && done <= stop <= |chunks| && e.Uniform(chunks[done..stop], dim)
      && after == Some(WholeRows(before, 4 * dim) + e.Encode(chunks[done..stop]))
    ensures
      var w := 4 * e.Dim(all);
      var n := Max(Rows(before, w), stop);
      PrefixOfEncoding(e, all, after) && HoldsRows(e, all, after, n) && Rows(after, w) == n
  {
    KeptPlusAppended(e, all, plan, before, stop);
    RowsOfEncoded(e, all, Max(Rows(before, 4 * e.Dim(all)), stop));
  }

  /** A run that is killed. */
  lemma KilledIsSafe(e: Embedder, all: seq<string>, plan: Plan, outcome: Outcome,
                     before: Option<seq<Byte>>, after: Option<seq<Byte>>)
    requires e.PacksFloats() && e.Dim(all) > 0
    requires PrefixOfEncoding(e, all, before)
    requires RunEffect(e, all, plan, outcome, before, after)
    requires outcome.Killed?
    ensures RunKeepsPromise(e, all, plan, outcome, before, after)
  {
    hide Embedder.Encode, Embedder.Row, Embedder.Uniform, Quotient, Times, Requested, PrefixOfEncoding, HoldsRows,
      WholeRows, Rows, Usable, FirstRagged, Bytes;
    if after != before {
      var dim := e.Dim(all);
      var chunks := Requested(all, plan.limit);
      var done := Min(Rows(before, 4 * dim), |chunks|);
      var kept := WholeRows(before, 4 * dim);
      if plan.batch <= 0 {
        KeptRun(e, all, before, after);
      } else {
        var stop, part :|
          done <= stop <= |chunks| && part <= e.Encode(chunks[done..stop])
          && e.Uniform(chunks[done..stop], dim) && after.value == kept + part;
        KilledRun(e, all, plan, before, after, stop, part);
      }
    }
  }

  /** A run whose service fails or answers with ragged vectors. */
  lemma StoppedIsSafe(e: Embedder, all: seq<string>, plan: Plan, outcome: Outcome,
                      before: Option<seq<Byte>>, after: Option<seq<Byte>>)
    requires e.PacksFloats() && e.Dim(all) > 0
    requires PrefixOfEncoding(e, all, before)
    requires RunEffect(e, all, plan, outcome, before, after)
    requires outcome.EmbedFailed? || outcome.RaggedRows?
    ensures RunKeepsPromise(e, all, plan, outcome, before, after)
  {
    hide Embedder.Encode, Embedder.Row, Embedder.Uniform, Quotient, Times, Requested, PrefixOfEncoding, HoldsRows,
      WholeRows, Rows, Usable, FirstRagged, Bytes;
    StoppedRun(e, all, plan, before, after, outcome.start);
    if outcome.RaggedRows? {
      RaggedIsUnusable(e, all, plan, outcome.start);
    }
  }

  /** A run that reports success. */
  lemma DoneIsSafe(e: Embedder, all: seq<string>, plan: Plan, outcome: Outcome,
                   before: Option<seq<Byte>>, after: Option<seq<Byte>>)
    requires e.PacksFloats() && e.Dim(all) > 0
    requires PrefixOfEncoding(e, all, before)
    requires RunEffect(e, all, plan, outcome, before, after)
    requires outcome.Done?
    ensures RunKeepsPromise(e, all, plan, outcome, before, after)
  {
    hide Embedder.Encode, Embedder.Row, Embedder.Uniform, Quotient, Times, Requested, PrefixOfEncoding, HoldsRows,
      WholeRows, Rows, Usable, FirstRagged, Bytes;
    if plan.batch < 0 {
      KeptRun(e, all, before, after);
    } else {
      var chunks := Requested(all, plan.limit);
      var done := Min(Rows(before, 4 * e.Dim(all)), |chunks|);
      assert chunks[done..|chunks|] == chunks[done..];
      StoppedRun(e, all, plan, before, after, |chunks|);
    }
  }

  /** A run that does not come to the append loop. */
  lemma NotStartedIsSafe(e: Embedder, all: seq<string>, plan: Plan, outcome: Outcome,
                         before: Option<seq<Byte>>, after: Option<seq<Byte>>)
    requires e.PacksFloats() && e.Dim(all) > 0
    requires PrefixOfEncoding(e, all, before)
    requires RunEffect(e, all, plan, outcome, before, after)
    requires outcome.NothingToDo? || outcome.ProbeFailed? || outcome.BadBatchSize?
    ensures RunKeepsPromise(e, all, plan, outcome, before, after)
  {
    hide Embedder.Encode, Embedder.Row, Embedder.Uniform, Quotient, Times, Requested, PrefixOfEncoding, HoldsRows,
      WholeRows, Rows, Usable, FirstRagged, Bytes;
    if outcome.BadBatchSize? {
      KeptRun(e, all, before, after);
    }
  }

  lemma RunIsSafe(e: Embedder, all: seq<string>, plan: Plan, outcome: Outcome,
                  before: Option<seq<Byte>>, after: Option<seq<Byte>>)
    requires e.PacksFloats() && e.Dim(all) > 0
    requires PrefixOfEncoding(e, all, before)
    requires RunEffect(e, all, plan, outcome, before, after)
    ensures RunKeepsPromise(e, all, plan, outcome, before, after)
  {
    hide RunEffect, RunKeepsPromise, PrefixOfEncoding, Embedder.Dim;
    match outcome
    case Killed => KilledIsSafe(e, all, plan, outcome, before, after);
    case EmbedFailed(_) => StoppedIsSafe(e, all, plan, outcome, before, after);
    case RaggedRows(_) => StoppedIsSafe(e, all, plan, outcome, before, after);
    case Done(_) => DoneIsSafe(e, all, plan, outcome, before, after);
    case _ => NotStartedIsSafe(e, all, plan, outcome, before, after);
  }

  lemma KeptRun(e: Embedder, all: seq<string>, before: Option<seq<Byte>>, after: Option<seq<Byte>>)
    requires e.PacksFloats() && e.Dim(all) > 0
    requires PrefixOfEncoding(e, all, before)
    requires after == Some(WholeRows(before, 4 * e.Dim(all)))
    ensures
      var w := 4 * e.Dim(all);
      PrefixOfEncoding(e, all, after) && HoldsRows(e, all, after, Rows(before, w)) && Rows(after, w) == Rows(before, w)
  {
    WholeRowsAreEncoded(e, all, before);
    RowsOfEncoded(e, all, Rows(before, 4 * e.Dim(all)));
  }

  lemma RaggedIsUnusable(e: Embedder, all: seq<string>, plan: Plan, start: nat)
    requires plan.batch > 0
    requires
      var chunks := Requested(all, plan.limit);
      && start < |chunks|
      && !e.Uniform(chunks[start..Min(start + plan.batch, |chunks|)], e.Dim(all))
    ensures Usable(e, all) < |Requested(all, plan.limit)|
  {
  }

  /** A history starts with no file and performs any runs, ending in any way. */
  ghost predicate IsHistory(e: Embedder, all: seq<string>, plans: seq<Plan>, outcomes: seq<Outcome>,
                            files: seq<Option<seq<Byte>>>)
    requires e.Dim(all) > 0
  {
    && |outcomes| == |plans| && |files| == |plans| + 1
    && files[0] == None
    && forall i | 0 <= i < |plans| :: RunEffect(e, all, plans[i], outcomes[i], files[i], files[i + 1])
  }

  lemma EmptyIsPrefix(e: Embedder, all: seq<string>)
    ensures PrefixOfEncoding(e, all, None)
  {
  }

  lemma PromisedPrefix(e: Embedder, all: seq<string>, plan: Plan, outcome: Outcome,
                       before: Option<seq<Byte>>, after: Option<seq<Byte>>)
    requires e.Dim(all) > 0 && RunKeepsPromise(e, all, plan, outcome, before, after)
    ensures PrefixOfEncoding(e, all, after)
  {
  }

  /** The invariant of every history. */
  lemma {:induction false} HistoryIsSafe(e: Embedder, all: seq<string>, plans: seq<Plan>, outcomes: seq<Outcome>,
                                         files: seq<Option<seq<Byte>>>, n: nat)
    requires e.PacksFloats() && e.Dim(all) > 0
    requires IsHistory(e, all, plans, outcomes, files)
    requires n <= |plans|
    ensures PrefixOfEncoding(e, all, files[n])
    ensures n < |plans| ==> RunKeepsPromise(e, all, plans[n], outcomes[n], files[n], files[n + 1])
  {
    hide RunEffect, RunKeepsPromise, Embedder.Encode, Embedder.Uniform, Usable, FirstRagged;
    if n == 0 {
      EmptyIsPrefix(e, all);
    } else {
      HistoryIsSafe(e, all, plans, outcomes, files, n - 1);
      PromisedPrefix(e, all, plans[n - 1], outcomes[n - 1], files[n - 1], files[n]);
    }
    if n < |plans| {
      RunIsSafe(e, all, plans[n], outcomes[n], files[n], files[n + 1]);
    }
  }

  /**
   What a run that asks for something and is not cut, refused or probed in vain
   ends with, after any history.  It completes the request exactly when the
   batch size is positive and all requested chunks are usable or already there.
   A negative batch size reports success and adds nothing; zero raises.
   */
  lemma UndisturbedRunExact(e: Embedder, all: seq<string>, plans: seq<Plan>, outcomes: seq<Outcome>,
                            files: seq<Option<seq<Byte>>>, n: nat)
    requires e.PacksFloats() && e.Dim(all) > 0
    requires IsHistory(e, all, plans, outcomes, files) && n < |plans|
    requires Requested(all, plans[n].limit) != []
    requires !outcomes[n].ProbeFailed? && !outcomes[n].EmbedFailed? && !outcomes[n].Killed?
    ensures
      var rows, limit := Rows(files[n], 4 * e.Dim(all)), plans[n].limit;
      var requested :=
        if limit == 0 || limit >= |all| then |all| else if limit > 0 then limit
        else if -limit <= |all| then |all| + limit else 0;
      && (plans[n].batch > 0 ==>
            (outcomes[n] == Done(if rows < requested then requested else rows) <==> requested <= Usable(e, all)))
      && (plans[n].batch > 0 && requested > Usable(e, all) ==> outcomes[n].RaggedRows?)
      && (plans[n].batch < 0 ==> outcomes[n] == Done(rows))
      && (plans[n].batch == 0 ==> outcomes[n] == BadBatchSize)
      && (outcomes[n].Done? ==> HoldsRows(e, all, files[n + 1], outcomes[n].count))
  {
    hide Embedder.Encode, Embedder.Row, Embedder.Uniform, Quotient, Times, PrefixOfEncoding, Requested;
    RequestedCount(all, plans[n].limit);
    HistoryIsSafe(e, all, plans, outcomes, files, n);
    assert RunEffect(e, all, plans[n], outcomes[n], files[n], files[n + 1]);
  }

  /**
   The request is complete afterwards exactly when it was before, or the batch
   size is positive and the chunks usable.
   */
  lemma RequestCompleteExact(e: Embedder, all: seq<string>, plans: seq<Plan>, outcomes: seq<Outcome>,
                             files: seq<Option<seq<Byte>>>, n: nat)
    requires e.PacksFloats() && e.Dim(all) > 0
    requires IsHistory(e, all, plans, outcomes, files) && n < |plans|
    requires Requested(all, plans[n].limit) != []
    requires !outcomes[n].ProbeFailed? && !outcomes[n].EmbedFailed? && !outcomes[n].Killed?
    ensures
      var w, limit := 4 * e.Dim(all), plans[n].limit;
      var requested :=
        if limit == 0 || limit >= |all| then |all| else if limit > 0 then limit
        else if -limit <= |all| then |all| + limit else 0;
      Rows(files[n + 1], w) >= requested
      <==> Rows(files[n], w) >= requested || (plans[n].batch > 0 && requested <= Usable(e, all))
  {
    hide Embedder.Encode, Embedder.Row, Quotient, Times, RunEffect, AppendEffect, Requested;
    RequestedCount(all, plans[n].limit);
    UndisturbedRunExact(e, all, plans, outcomes, files, n);
    HistoryIsSafe(e, all, plans, outcomes, files, n);
    match outcomes[n]
    case Done(count) => RowsOfEncoded(e, all, count);
    case RaggedRows(start) =>
      RowsOfEncoded(e, all, Max(Rows(files[n], 4 * e.Dim(all)), start));
    case BadBatchSize => RowsOfEncoded(e, all, Rows(files[n], 4 * e.Dim(all)));
    case _ =>
  }

  /** Row `i` of such a file is the packed vector of chunk `i`, at its place. */
  lemma RowIsChunk(e: Embedder, all: seq<string>, content: Option<seq<Byte>>, n: nat, i: nat)
    requires e.PacksFloats() && HoldsRows(e, all, content, n) && i < n
    ensures
      var w := 4 * |e.vector(all[0])|;
      && 0 <= i * w <= (i + 1) * w <= |content.value|
      && content.value[i * w..(i + 1) * w] == e.pack(e.vector(all[i]))
  {
    hide Embedder.Encode;
    var dim := e.Dim(all);
    var w := 4 * dim;
    var before, row, after := all[..i], all[i..i + 1], all[i + 1..n];
    UsablePrefix(e, all, n);
    EncodeSplit(e, all[..n], i + 1, n);
    EncodeSplit(e, all[..n], i, i + 1);
    assert all[..n][..i] == before && all[..n][i..i + 1] == row && all[..n][..n] == all[..n];
    assert all[..n][i + 1..n] == after;
    OneRow(e, all[i]);
    assert row == [all[i]];
    EncodeLength(e, before, dim);
    TimesIsProduct(i, w);
    assert (i + 1) * w == i * w + w;
    assert content.value == e.Encode(before) + e.Encode(row) + e.Encode(after);
  }

  lemma OneRow(e: Embedder, chunk: string)
    ensures e.Encode([chunk]) == e.pack(e.vector(chunk))
  {
    assert [chunk][..0] == [];
  }

  lemma UsablePrefix(e: Embedder, all: seq<string>, n: nat)
    requires n <= Usable(e, all)
    ensures e.Uniform(all[..n], e.Dim(all))
  {
    forall i | 0 <= i < n ensures |e.vector(all[..n][i])| == e.Dim(all) {
      assert all[..Usable(e, all)][i] == all[i];
    }
  }
}
