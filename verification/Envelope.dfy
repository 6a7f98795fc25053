/** Response budgets: the item count admitted up front implies the size check made later
    on the response tree, and the provider permit covers the tree it is taken for. */
module Envelope {
  import opened Arithmetic
  import Permits

  const MIB: nat := 1024 * 1024
  const U64_MAX: nat := 0xFFFF_FFFF_FFFF_FFFF
  const RESPONSE_WIRE_BUDGET_BYTES: nat := 48 * 1024 * 1024
  const WIRE_BYTES_PER_FLOAT: nat := 12
  const RESPONSE_TREE_BUDGET_BYTES: nat := 96 * 1024 * 1024
  const TRANSIENT_TREE_BYTES_PER_FLOAT: nat := 96
  const TRANSIENT_TREE_BYTES_PER_ITEM: nat := 256
  const MAX_REQUEST_ITEMS: nat := 4096
  const OUTPUT_TREE_BUDGET_BYTES: nat := 96 * 1024 * 1024
  const TREE_ITEM_OVERHEAD_BYTES: nat := 256
  const PROVIDER_RESPONSE_BUDGET_MIB: nat := 256
  const MAX_PLAUSIBLE_DIM: nat := 100_000
  const I32_MAX: int := 0x7FFF_FFFF

  function SatMul(a: nat, b: nat): nat { Min(a * b, U64_MAX) }
  function SatAdd(a: nat, b: nat): nat { Min(a + b, U64_MAX) }

  /** Embeddings of `dim` components that fit one response budget; always at least 1. */
  function MaxItemsForDim(dim: int): (items: nat)
    requires -I32_MAX - 1 <= dim <= I32_MAX
    ensures 1 <= items <= MAX_REQUEST_ITEMS
  {
    var d := Max(dim, 1);
    var wire := Share(RESPONSE_WIRE_BUDGET_BYTES, SatMul(d, WIRE_BYTES_PER_FLOAT));
    var trees := Share(RESPONSE_TREE_BUDGET_BYTES,
                       SatAdd(SatMul(d, TRANSIENT_TREE_BYTES_PER_FLOAT), TRANSIENT_TREE_BYTES_PER_ITEM));
    Min(Max(Min(wire, trees), 1), MAX_REQUEST_ITEMS)
  }

  /** At any 32-bit dimension the per-item costs are exact: nothing saturates. */
  lemma PerItem(d: nat)
    requires 1 <= d <= I32_MAX
    ensures SatMul(d, WIRE_BYTES_PER_FLOAT) == 12 * d >= 1
    ensures SatAdd(SatMul(d, TRANSIENT_TREE_BYTES_PER_FLOAT), TRANSIENT_TREE_BYTES_PER_ITEM) == 96 * d + 256
  {
  }

  /** Past the first item, which is always admitted, the count admitted is the most that fits: both
      budgets hold at `n` items exactly when `n` is admitted. */
  lemma AdmitsWhatFits(dim: int, n: nat)
    requires 1 <= dim <= I32_MAX && 1 < n <= MAX_REQUEST_ITEMS
    ensures n <= MaxItemsForDim(dim) <==> n * dim * 12 <= 48 * 1024 * 1024 && n * (96 * dim + 256) <= 96 * 1024 * 1024
  {
    PerItem(dim);
    ShareIsMost(48 * 1024 * 1024, 12 * dim, n);
    ShareIsMost(96 * 1024 * 1024, 96 * dim + 256, n);
    assert n * (12 * dim) == n * dim * 12;
    hide Share, SatMul, SatAdd;
  }

  /** A dimension that is not known, or makes no sense, leaves only the absolute ceiling. */
  lemma AdmitsAllWithoutDim(dim: int)
    requires -I32_MAX - 1 <= dim <= 0
    ensures MaxItemsForDim(dim) == 4096
  {
    AdmitsWhatFits(1, 4096);
  }

  /** One row of an executor's output. */
  datatype Row = Numbers(count: nat) | Encoded(bytes: nat) | Other

  datatype Verdict = Accepted | TooManyRows | NotAnArray | TreeTooLarge

  function Components(rows: seq<Row>): nat {
    if rows == [] then 0
    else Components(rows[..|rows| - 1]) + (if rows[|rows| - 1].Numbers? then rows[|rows| - 1].count else 0)
  }

  function StringBytes(rows: seq<Row>): nat {
    if rows == [] then 0
    else StringBytes(rows[..|rows| - 1]) + (if rows[|rows| - 1].Encoded? then rows[|rows| - 1].bytes else 0)
  }

  /** Bytes of the coexisting JSON and prost trees, without saturation. */
  function TreeBytes(rows: seq<Row>, componentBytes: nat): nat {
    Components(rows) * componentBytes + |rows| * TREE_ITEM_OVERHEAD_BYTES + StringBytes(rows) * 2
  }

  lemma TreeBytesOf(rows: seq<Row>, row: Row)
    ensures Components(rows + [row]) == Components(rows) + (if row.Numbers? then row.count else 0)
    ensures StringBytes(rows + [row]) == StringBytes(rows) + (if row.Encoded? then row.bytes else 0)
  {
    assert (rows + [row])[..|rows|] == rows;
  }

  /** Trees add up: rows of numbers cost their components, encoded rows their bytes twice, and every
      row its overhead, wherever in the response they stand. */
  lemma {:induction false} TreeBytesAdd(a: seq<Row>, b: seq<Row>, componentBytes: nat)
    ensures TreeBytes(a + b, componentBytes) == TreeBytes(a, componentBytes) + TreeBytes(b, componentBytes)
    ensures forall n: nat :: TreeBytes([Numbers(n)], componentBytes) == n * componentBytes + 256
    ensures forall n: nat :: TreeBytes([Encoded(n)], componentBytes) == 2 * n + 256
  {
    hide Components, StringBytes;
    forall row: Row
      ensures Components([row]) == (if row.Numbers? then row.count else 0)
      ensures StringBytes([row]) == (if row.Encoded? then row.bytes else 0)
    {
      OneRow(row);
    }
    if b == [] {
      assert a + b == a;
      NoRows();
    } else {
      var init, last := b[..|b| - 1], b[|b| - 1];
      assert b == init + [last];
      assert a + b == (a + init) + [last];
      TreeBytesOf(init, last);
      TreeBytesOf(a + init, last);
      TreeBytesAdd(a, init, componentBytes);
    }
  }

  lemma NoRows()
    ensures Components([]) == 0 && StringBytes([]) == 0
  {
  }

  lemma OneRow(row: Row)
    ensures Components([row]) == (if row.Numbers? then row.count else 0)
    ensures StringBytes([row]) == (if row.Encoded? then row.bytes else 0)
  {
    NoRows();
    TreeBytesOf([], row);
    assert [] + [row] == [row];
  }

  /** What the check decides, in exact arithmetic. */
  function TreeVerdict(rows: seq<Row>, componentBytes: nat): Verdict {
    if |rows| > MAX_REQUEST_ITEMS then TooManyRows
    else if Other in rows then NotAnArray
    else if TreeBytes(rows, componentBytes) > OUTPUT_TREE_BUDGET_BYTES then TreeTooLarge
    else Accepted
  }

  /** The shape and size check made before the second tree is built; `componentBytes` is the size
      of one JSON value and one prost value together. */
  method CheckTree(rows: seq<Row>, componentBytes: nat) returns (v: Verdict)
    ensures v == TreeVerdict(rows, componentBytes)
    ensures v == Accepted <==> |rows| <= 4096 && Other !in rows && TreeBytes(rows, componentBytes) <= 96 * 1024 * 1024
  {
    if |rows| > MAX_REQUEST_ITEMS {
      return TooManyRows;
    }
    var totalComponents, stringBytes := 0, 0;
    var i := 0;
    while i < |rows|
      invariant 0 <= i <= |rows| && Other !in rows[..i]
      invariant totalComponents == Min(Components(rows[..i]), U64_MAX)
      invariant stringBytes == Min(StringBytes(rows[..i]), U64_MAX)
    {
      assert rows[..i + 1][..i] == rows[..i];
      match rows[i] {
        case Encoded(bytes) => stringBytes := SatAdd(stringBytes, bytes);
        case Numbers(count) => totalComponents := SatAdd(totalComponents, count);
        case Other => return NotAnArray;
      }
      i := i + 1;
    }
    assert rows[..i] == rows;
    var estimated := SatAdd(SatAdd(SatMul(totalComponents, componentBytes), SatMul(|rows|, TREE_ITEM_OVERHEAD_BYTES)),
                            SatMul(stringBytes, 2));
    SaturationIsHarmless(Components(rows), componentBytes, |rows| * TREE_ITEM_OVERHEAD_BYTES, StringBytes(rows));
    if estimated > OUTPUT_TREE_BUDGET_BYTES {
      return TreeTooLarge;
    }
    return Accepted;
  }

  /** Saturating at 64 bits never hides an overrun of the tree budget. */
  lemma SaturationIsHarmless(components: nat, each: nat, rows: nat, strings: nat)
    requires rows <= U64_MAX
    ensures var sum := SatAdd(SatAdd(SatMul(Min(components, U64_MAX), each), rows), SatMul(Min(strings, U64_MAX), 2));
            sum > OUTPUT_TREE_BUDGET_BYTES <==> components * each + rows + strings * 2 > OUTPUT_TREE_BUDGET_BYTES
  {
    if components > U64_MAX && each >= 1 {
      assert U64_MAX * each >= U64_MAX && components * each >= U64_MAX * each;
    }
  }

  // ---- the admission implies the check ----

  /** Rows of one width, as the executor and the providers return them. */
  predicate Uniform(rows: seq<Row>, dim: nat) { forall i :: 0 <= i < |rows| ==> rows[i] == Numbers(dim) }

  lemma {:induction false} UniformComponents(rows: seq<Row>, dim: nat)
    requires Uniform(rows, dim)
    ensures Components(rows) == |rows| * dim && StringBytes(rows) == 0
  {
    if rows != [] {
      UniformComponents(rows[..|rows| - 1], dim);
      assert |rows| * dim == (|rows| - 1) * dim + dim;
    }
  }

  /** Every batch admitted at `dim` passes the later check. */
  ghost predicate AdmissionSound(dim: nat, componentBytes: nat)
    requires 1 <= dim <= I32_MAX
  {
    forall rows: seq<Row> :: Uniform(rows, dim) && |rows| <= MaxItemsForDim(dim) ==> TreeVerdict(rows, componentBytes) == Accepted
  }

  function UniformBytes(n: nat, dim: nat, componentBytes: nat): nat { n * dim * componentBytes + n * TREE_ITEM_OVERHEAD_BYTES }

  lemma UniformVerdict(rows: seq<Row>, dim: nat, componentBytes: nat)
    requires Uniform(rows, dim) && |rows| <= MAX_REQUEST_ITEMS
    ensures TreeVerdict(rows, componentBytes) == Accepted <==> UniformBytes(|rows|, dim, componentBytes) <= OUTPUT_TREE_BUDGET_BYTES
  {
    UniformComponents(rows, dim);
  }

  lemma UniformBytesGrow(n: nat, m: nat, dim: nat, componentBytes: nat)
    requires n <= m
    ensures UniformBytes(n, dim, componentBytes) <= UniformBytes(m, dim, componentBytes)
  {
    assert n * dim <= m * dim;
    assert n * dim * componentBytes <= m * dim * componentBytes;
  }

  /** For any component size, admission implies the check exactly when the largest batch passes it. */
  lemma AdmissionSoundExactly(dim: nat, componentBytes: nat)
    requires 1 <= dim <= I32_MAX
    ensures AdmissionSound(dim, componentBytes) <==>
              UniformBytes(MaxItemsForDim(dim), dim, componentBytes) <= OUTPUT_TREE_BUDGET_BYTES
  {
    hide MaxItemsForDim, TreeVerdict, UniformBytes;
    var most := MaxItemsForDim(dim);
    var full := seq(most, _ => Numbers(dim));
    UniformVerdict(full, dim, componentBytes);
    if UniformBytes(most, dim, componentBytes) <= OUTPUT_TREE_BUDGET_BYTES {
      forall rows: seq<Row> | Uniform(rows, dim) && |rows| <= most ensures TreeVerdict(rows, componentBytes) == Accepted {
        UniformVerdict(rows, dim, componentBytes);
        UniformBytesGrow(|rows|, most, dim, componentBytes);
      }
    } else {
      assert Uniform(full, dim) && |full| <= most;
    }
  }

  /** Components of at most 96 bytes: admission implies the check exactly when one row of that width
      passes it, which is what the floor of one item rests on. */
  lemma AdmissionSoundIff(dim: nat, componentBytes: nat)
    requires 1 <= dim <= I32_MAX && componentBytes <= TRANSIENT_TREE_BYTES_PER_FLOAT
    ensures AdmissionSound(dim, componentBytes) <==> TreeVerdict([Numbers(dim)], componentBytes) == Accepted
    ensures AdmissionSound(dim, componentBytes) <==> dim * componentBytes + TREE_ITEM_OVERHEAD_BYTES <= OUTPUT_TREE_BUDGET_BYTES
  {
    AdmissionSoundExactly(dim, componentBytes);
    UniformVerdict([Numbers(dim)], dim, componentBytes);
    hide AdmissionSound, TreeVerdict, MaxItemsForDim;
    assert UniformBytes(1, dim, componentBytes) == dim * componentBytes + TREE_ITEM_OVERHEAD_BYTES;
    var most := MaxItemsForDim(dim);
    UniformBytesGrow(1, most, dim, componentBytes);
    if dim * componentBytes + TREE_ITEM_OVERHEAD_BYTES <= OUTPUT_TREE_BUDGET_BYTES {
      LargestBatchFits(dim, componentBytes);
    }
  }

  lemma LargestBatchFits(dim: nat, componentBytes: nat)
    requires 1 <= dim <= I32_MAX && componentBytes <= TRANSIENT_TREE_BYTES_PER_FLOAT
    requires dim * componentBytes + TREE_ITEM_OVERHEAD_BYTES <= OUTPUT_TREE_BUDGET_BYTES
    ensures UniformBytes(MaxItemsForDim(dim), dim, componentBytes) <= OUTPUT_TREE_BUDGET_BYTES
  {
    var most := MaxItemsForDim(dim);
    if 96 * dim + 256 <= RESPONSE_TREE_BUDGET_BYTES {
      AtLeastOneItem(dim);
      hide MaxItemsForDim, Share;
      ShareIsMost(RESPONSE_TREE_BUDGET_BYTES, 96 * dim + 256, most);
      ProductBounds(most, dim, componentBytes);
    } else {
      PerItem(dim);
      OneItemOnly(dim);
    }
  }

  /** Where not even one item fits the accounting unit, the floor admits exactly one. */
  lemma OneItemOnly(dim: nat)
    requires 1 <= dim <= I32_MAX && 96 * dim + 256 > RESPONSE_TREE_BUDGET_BYTES
    ensures MaxItemsForDim(dim) == 1
  {
    PerItem(dim);
    ShareIsMost(RESPONSE_TREE_BUDGET_BYTES, 96 * dim + 256, 1);
    hide Share, SatMul, SatAdd;
  }

  /** Where one item fits the accounting unit, the floor never overrides the budgets. */
  lemma AtLeastOneItem(dim: nat)
    requires 1 <= dim && 96 * dim + 256 <= RESPONSE_TREE_BUDGET_BYTES
    ensures Share(RESPONSE_WIRE_BUDGET_BYTES, 12 * dim) >= 1 && Share(RESPONSE_TREE_BUDGET_BYTES, 96 * dim + 256) >= 1
    ensures MaxItemsForDim(dim) <= Share(RESPONSE_WIRE_BUDGET_BYTES, 12 * dim)
    ensures MaxItemsForDim(dim) <= Share(RESPONSE_TREE_BUDGET_BYTES, 96 * dim + 256)
  {
    PerItem(dim);
    ShareIsMost(RESPONSE_WIRE_BUDGET_BYTES, 12 * dim, 1);
    ShareIsMost(RESPONSE_TREE_BUDGET_BYTES, 96 * dim + 256, 1);
    hide SatMul, SatAdd, Share;
  }

  /** No dimension the server resolves comes near that bound: an admitted batch fits the wire budget
      and is accepted by the later check, whatever the two component sizes, as long as they sum to
      at most 96. */
  lemma AdmittedBatchNeverRefused(rows: seq<Row>, dim: nat, json: nat, prost: nat)
    requires 1 <= dim <= 100_000 && json + prost <= 96
    requires Uniform(rows, dim) && |rows| <= MaxItemsForDim(dim)
    ensures TreeVerdict(rows, json + prost) == Accepted
    ensures |rows| * dim * WIRE_BYTES_PER_FLOAT <= RESPONSE_WIRE_BUDGET_BYTES
  {
    hide MaxItemsForDim, TreeVerdict, AdmissionSound, Uniform;
    Grows(dim, MAX_PLAUSIBLE_DIM, json + prost, TRANSIENT_TREE_BYTES_PER_FLOAT);
    AdmissionSoundIff(dim, json + prost);
    AdmittedIsAccepted(rows, dim, json + prost);
    AdmittedBatchFits(|rows|, dim);
  }

  lemma AdmittedIsAccepted(rows: seq<Row>, dim: nat, componentBytes: nat)
    requires 1 <= dim <= I32_MAX && AdmissionSound(dim, componentBytes)
    requires Uniform(rows, dim) && |rows| <= MaxItemsForDim(dim)
    ensures TreeVerdict(rows, componentBytes) == Accepted
  {
    hide MaxItemsForDim, TreeVerdict, Uniform;
  }

  /** An admitted batch fits the wire budget. */
  lemma AdmittedBatchFits(n: nat, dim: nat)
    requires 1 <= dim <= I32_MAX && n <= MaxItemsForDim(dim) && 96 * dim + 256 <= RESPONSE_TREE_BUDGET_BYTES
    ensures n * dim * WIRE_BYTES_PER_FLOAT <= RESPONSE_WIRE_BUDGET_BYTES
  {
    AtLeastOneItem(dim);
    hide MaxItemsForDim, Share;
    ShareIsMost(RESPONSE_WIRE_BUDGET_BYTES, 12 * dim, n);
    assert n * (12 * dim) == n * dim * 12;
  }

  // ---- provider responses ----

  /** Bytes of the prost tree of a provider response. */
  function ProviderBytes(rows: nat, dim: nat, prost: nat): nat { rows * dim * prost + rows * TREE_ITEM_OVERHEAD_BYTES }

  /** MiB of permits such a response takes, rounded up and clamped. */
  function ProviderResponseMib(rows: nat, dim: int, prost: nat): (mib: nat)
    ensures 1 <= mib <= PROVIDER_RESPONSE_BUDGET_MIB
  {
    var components := SatMul(rows, Max(dim, 0));
    var bytes := SatAdd(SatMul(components, prost), SatMul(rows, TREE_ITEM_OVERHEAD_BYTES));
    var mib := Max((bytes + MIB - 1) / MIB, 1);
    Min(mib, PROVIDER_RESPONSE_BUDGET_MIB)
  }

  /** The weight is the tree in whole MiB, rounded up, at least one and cut off at the whole budget;
      saturation changes nothing. */
  lemma WeightIsTheTree(rows: nat, dim: int, prost: nat, mib: nat)
    requires 1 <= mib <= 255
    ensures ProviderResponseMib(rows, dim, prost) <= mib <==> rows * Max(dim, 0) * prost + rows * 256 <= mib * 1024 * 1024
  {
    var d := Max(dim, 0);
    var components := SatMul(rows, d);
    var bytes := SatAdd(SatMul(components, prost), SatMul(rows, TREE_ITEM_OVERHEAD_BYTES));
    SaturatedTree(rows * d, prost, rows * 256, mib * MIB);
    hide SatMul, SatAdd;
    CeilAtMost(bytes, mib);
  }

  lemma SaturatedTree(components: nat, prost: nat, rows: nat, limit: nat)
    requires limit < U64_MAX
    ensures SatAdd(SatMul(Min(components, U64_MAX), prost), Min(rows, U64_MAX)) <= limit <==> components * prost + rows <= limit
  {
    if components > U64_MAX && prost >= 1 {
      Grows(U64_MAX, components, 1, prost);
      Grows(U64_MAX, U64_MAX, 1, prost);
    }
  }

  lemma CeilAtMost(bytes: nat, mib: nat)
    ensures (bytes + MIB - 1) / MIB <= mib <==> bytes <= mib * MIB
  {
  }

  /** For an admitted batch the permit covers the whole tree: the clamp never bites. */
  lemma PermitCoversTree(rows: nat, dim: nat, json: nat, prost: nat)
    requires 1 <= dim <= MAX_PLAUSIBLE_DIM && json + prost <= TRANSIENT_TREE_BYTES_PER_FLOAT && rows <= MaxItemsForDim(dim)
    ensures ProviderBytes(rows, dim, prost) <= ProviderResponseMib(rows, dim, prost) * MIB
    ensures ProviderResponseMib(rows, dim, prost) <= 96
  {
    AtLeastOneItem(dim);
    hide MaxItemsForDim, Share, ProviderResponseMib;
    ShareIsMost(RESPONSE_TREE_BUDGET_BYTES, 96 * dim + 256, rows);
    ProductBounds(rows, dim, prost);
    ExactMib(rows, dim, prost);
    CeilMib(ProviderBytes(rows, dim, prost));
  }

  /** Within the tree budget the weight is the tree size rounded up, with no saturation. */
  lemma ExactMib(rows: nat, dim: nat, prost: nat)
    requires ProviderBytes(rows, dim, prost) <= 96 * MIB && rows * dim <= 96 * MIB
    ensures ProviderResponseMib(rows, dim, prost) == Max((ProviderBytes(rows, dim, prost) + MIB - 1) / MIB, 1)
  {
    CeilMib(ProviderBytes(rows, dim, prost));
    Unsaturated(rows * dim, prost, rows);
  }

  lemma Unsaturated(components: nat, prost: nat, rows: nat)
    requires components * prost + rows * TREE_ITEM_OVERHEAD_BYTES <= 96 * MIB
    ensures SatAdd(SatMul(components, prost), SatMul(rows, TREE_ITEM_OVERHEAD_BYTES))
            == components * prost + rows * TREE_ITEM_OVERHEAD_BYTES
  {
    assert components * prost >= 0;
  }

  lemma ProductBounds(rows: nat, dim: nat, prost: nat)
    requires rows * (96 * dim + 256) <= 96 * MIB && prost <= 96
    ensures rows * dim * prost + rows * 256 <= 96 * MIB && rows * dim <= 96 * MIB
  {
    var components := rows * dim;
    assert rows * (96 * dim + 256) == components * 96 + rows * 256;
    assert components * prost <= components * 96;
  }

  lemma CeilMib(bytes: nat)
    requires bytes <= 96 * MIB
    ensures bytes <= (bytes + MIB - 1) / MIB * MIB && (bytes + MIB - 1) / MIB <= 96
  {
  }

  /** In every run, if each request was weighed by `ProviderResponseMib` for an admitted
      batch, the provider responses held never total more than 256 MiB. */
  lemma ProviderResponsesBounded(run: seq<Permits.State>, i: nat)
    requires Permits.Run(run) && i < |run| && run[0].capacity == PROVIDER_RESPONSE_BUDGET_MIB
    requires forall id :: id in run[i].requests ==> Weighed(run[i].requests[id])
    ensures Permits.Total(run[i].requests, Permits.HeldBytes) <= 256 * 1024 * 1024
  {
    hide Permits.Run, Permits.Total, ProviderResponseMib, MaxItemsForDim, ProviderBytes;
    forall id | id in run[i].requests
      ensures Permits.Scales(run[i].requests[id].bytes, run[i].requests[id].weight, MIB)
    {
      var rows, dim, json, prost :| WeighedAs(run[i].requests[id], rows, dim, json, prost);
      PermitCoversTree(rows, dim, json, prost);
    }
    Permits.HeldBytesBounded(run, i, MIB);
  }

  ghost predicate WeighedAs(r: Permits.Request, rows: nat, dim: nat, json: nat, prost: nat) {
    && 1 <= dim <= MAX_PLAUSIBLE_DIM && json + prost <= TRANSIENT_TREE_BYTES_PER_FLOAT && rows <= MaxItemsForDim(dim)
    && r.weight == ProviderResponseMib(rows, dim, prost) && r.bytes == ProviderBytes(rows, dim, prost)
  }

  ghost predicate Weighed(r: Permits.Request) {
    exists rows: nat, dim: nat, json: nat, prost: nat :: WeighedAs(r, rows, dim, json, prost)
  }
}
