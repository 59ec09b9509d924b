/** Embeddings end to end in one array, with a free list of slots. */
module VectorIndexes {
  import opened ByteStrings

  /** The vector in slot `slot` of an array of `dim`-wide rows. */
  function Row(data: seq<real>, dim: nat, slot: nat): seq<real>
    requires slot * dim + dim <= |data|
  {
    data[slot * dim..slot * dim + dim]
  }

  function Zeros(n: nat): (z: seq<real>)
    ensures |z| == n
  {
    seq(n, i => 0.0)
  }

  lemma Spread(a: nat, b: nat, dim: nat)
    ensures (a + b) * dim == a * dim + b * dim && b * dim >= 0
  {
  }

  lemma RowFits(slot: nat, slots: nat, dim: nat)
    ensures slot < slots ==> slot * dim + dim <= slots * dim
    ensures dim > 0 && slot >= slots ==> slot * dim + dim > slots * dim
  {
    if slot < slots {
      Spread(slot + 1, slots - slot - 1, dim);
      Spread(slot, 1, dim);
    } else {
      Spread(slots, slot - slots, dim);
    }
  }

  lemma RowsApart(a: nat, b: nat, dim: nat)
    requires a < b
    ensures a * dim + dim <= b * dim
  {
    RowFits(a, b, dim);
  }

  function Written(data: seq<real>, dim: nat, slot: nat, values: seq<real>): seq<real>
    requires slot * dim + dim <= |data| && |values| == dim
  {
    data[..slot * dim] + values + data[slot * dim + dim..]
  }

  /** Writing one row changes that row alone. */
  lemma WriteRow(data: seq<real>, dim: nat, slots: nat, slot: nat, values: seq<real>)
    requires |data| == slots * dim && slot < slots && |values| == dim
    ensures slot * dim + dim <= |data|
    ensures var after := Written(data, dim, slot, values);
            && |after| == slots * dim
            && slot * dim + dim <= |after| && Row(after, dim, slot) == values
    ensures forall other | 0 <= other < slots && other != slot ::
              other * dim + dim <= |data| && Row(Written(data, dim, slot, values), dim, other) == Row(data, dim, other)
  {
    RowFits(slot, slots, dim);
    var after := Written(data, dim, slot, values);
    assert |after| == slots * dim;
    assert Row(after, dim, slot) == values;
    forall other | 0 <= other < slots && other != slot
      ensures other * dim + dim <= |data| && Row(after, dim, other) == Row(data, dim, other)
    {
      RowFits(other, slots, dim);
      if other < slot { RowsApart(other, slot, dim); } else { RowsApart(slot, other, dim); }
    }
  }

  /** Growing the array leaves the old rows alone. */
  lemma GrowRows(data: seq<real>, dim: nat, slots: nat)
    requires |data| == slots * dim
    ensures var after := data + Zeros(dim);
            && |after| == (slots + 1) * dim
            && forall slot | 0 <= slot < slots ::
                 slot * dim + dim <= |data| && Row(after, dim, slot) == Row(data, dim, slot)
    ensures dim > 0 ==> |data + Zeros(dim)| / dim - 1 == slots
  {
    var after := data + Zeros(dim);
    assert |after| == (slots + 1) * dim;
    forall slot | 0 <= slot < slots
      ensures slot * dim + dim <= |data| && Row(after, dim, slot) == Row(data, dim, slot)
    {
      RowFits(slot, slots, dim);
    }
    if dim > 0 { DivideRows(slots + 1, dim); }
  }

  lemma DivideRows(n: nat, dim: nat)
    requires dim > 0
    ensures n * dim / dim == n
  {
    var q, r := n * dim / dim, n * dim % dim;
    assert n * dim == q * dim + r && 0 <= q;
    if q < n {
      RowsApart(q, n, dim);
    } else if n < q {
      RowsApart(n, q, dim);
    }
  }

  /** Every slot is on the free list once or owned, never both, and every owned slot reads back what
      was last stored in it. */
  ghost predicate SlotsOk(data: seq<real>, dim: nat, free: seq<nat>, slots: nat, owned: map<nat, seq<real>>) {
    && |data| == slots * dim
    && NoRepeat(free)
    && (forall s | s in free :: s < slots && s !in owned)
    && (forall s | 0 <= s < slots :: s in owned || s in free)
    && (forall s | s in owned ::
          s < slots && |owned[s]| == dim && s * dim + dim <= |data| && Row(data, dim, s) == owned[s])
  }

  class VectorIndex {
    const dim: nat
    /** Whether stored vectors are scaled to unit length, and the scaling itself. */
    const normalizes: bool
    const normalize: seq<real> -> seq<real>
    var data: seq<real>
    var free: seq<nat>
    var live: nat
    ghost var slots: nat
    ghost var owned: map<nat, seq<real>>

    ghost predicate Valid()
      reads this
    {
      && SlotsOk(data, dim, free, slots, owned)
      && live == |owned|
      && (forall v :: |normalize(v)| == |v|)
    }

    constructor (dim: nat, normalizes: bool, normalize: seq<real> -> seq<real>)
      requires forall v :: |normalize(v)| == |v|
      ensures Valid() && owned == map[] && this.dim == dim && this.normalizes == normalizes && this.normalize == normalize
    {
      this.dim, this.normalizes, this.normalize := dim, normalizes, normalize;
      data, free, live, slots, owned := [], [], 0, 0, map[];
    }

    /** What storing `values` keeps of them. */
    function Stored(values: seq<real>): seq<real> {
      if normalizes then normalize(values) else values
    }

    /** Stores `values` in a slot nobody owns: the one freed last, or a new one if none is free. */
    method Insert(values: seq<real>) returns (slot: nat)
      requires Valid() && dim > 0 && |values| == dim
      modifies this
      ensures Valid() && slot !in old(owned) && owned == old(owned)[slot := Stored(values)]
      ensures owned[slot] == if normalizes then normalize(values) else values
      ensures old(free) != [] ==> slots == old(slots) && free + [slot] == old(free)
      ensures old(free) == [] ==> slots == old(slots) + 1 && slot == old(slots) && free == []
    {
      if free != [] {
        slot := free[|free| - 1];
        FreePop(data, dim, free, slots, owned);
        free := free[..|free| - 1];
      } else {
        GrowRows(data, dim, slots);
        GrowSlots(data, dim, slots, owned);
        data := data + Zeros(dim);
        slot := |data| / dim - 1;
        slots := slots + 1;
      }
      live := live + 1;
      Write(slot, values);
    }

    /** Overwrites a row; `slot` may be one just handed out. */
    method Write(slot: nat, values: seq<real>)
      requires |values| == dim && slot < slots && (forall v :: |normalize(v)| == |v|)
      requires |data| == slots * dim && NoRepeat(free) && slot !in free
      requires forall s | s in free :: s < slots && s !in owned
      requires forall s | 0 <= s < slots && s != slot :: s in owned || s in free
      requires forall s | s in owned && s != slot ::
                 s < slots && |owned[s]| == dim && s * dim + dim <= |data| && Row(data, dim, s) == owned[s]
      requires live == |owned| + if slot in owned then 0 else 1
      modifies this`data, this`owned
      ensures Valid() && owned == old(owned)[slot := Stored(values)]
    {
      RowFits(slot, slots, dim);
      WriteRow(data, dim, slots, slot, Stored(values));
      data := Written(data, dim, slot, Stored(values));
      owned := owned[slot := Stored(values)];
    }

    /** Replaces the vector in an owned slot. */
    method Overwrite(slot: nat, values: seq<real>)
      requires Valid() && slot in owned && |values| == dim
      modifies this`data, this`owned
      ensures Valid() && owned == old(owned)[slot := Stored(values)]
      ensures owned[slot] == if normalizes then normalize(values) else values
    {
      Write(slot, values);
    }

    /** Frees a slot, once. */
    method Remove(slot: nat)
      requires Valid() && dim > 0
      modifies this
      ensures Valid() && owned == old(owned) - {slot}
    {
      NotOwned(data, dim, free, slots, owned, slot);
      if slot * dim + dim > |data| || slot in free { return; }
      FreePush(data, dim, free, slots, owned, slot);
      DropSize(owned, slot);
      hide SlotsOk, Row, Written, NoRepeat;
      data := Written(data, dim, slot, Zeros(dim));
      free := free + [slot];
      live := live - 1;
      owned := owned - {slot};
    }

    /** Each owned slot reads back its last stored vector. */
    method Get(slot: nat) returns (row: Option<seq<real>>)
      requires Valid()
      ensures slot in owned ==> row == Some(owned[slot])
      ensures row.Some? ==> |row.value| == dim
    {
      OwnedRow(data, dim, free, slots, owned, slot);
      hide SlotsOk, Row;
      if slot * dim + dim > |data| { return None; }
      return Some(Row(data, dim, slot));
    }
  }

  lemma FreePop(data: seq<real>, dim: nat, free: seq<nat>, slots: nat, owned: map<nat, seq<real>>)
    requires SlotsOk(data, dim, free, slots, owned) && free != []
    ensures var slot, rest := free[|free| - 1], free[..|free| - 1];
            && slot < slots && slot !in owned && slot !in rest && NoRepeat(rest)
            && (forall s | s in rest :: s in free)
            && (forall s | 0 <= s < slots && s != slot :: s in owned || s in rest)
  {
    var slot, rest := free[|free| - 1], free[..|free| - 1];
    assert free == rest + [slot] && slot in free;
    assert forall i | 0 <= i < |rest| :: rest[i] == free[i] && free[i] != slot;
  }

  lemma DropSize(owned: map<nat, seq<real>>, slot: nat)
    requires slot in owned
    ensures |owned - {slot}| == |owned| - 1
  {
    assert owned.Keys == (owned - {slot}).Keys + {slot};
  }

  lemma OwnedRow(data: seq<real>, dim: nat, free: seq<nat>, slots: nat, owned: map<nat, seq<real>>, slot: nat)
    requires SlotsOk(data, dim, free, slots, owned)
    ensures slot in owned ==> slot * dim + dim <= |data| && Row(data, dim, slot) == owned[slot]
    ensures slot * dim + dim <= |data| ==> |Row(data, dim, slot)| == dim
  {
    hide NoRepeat;
  }

  lemma NotOwned(data: seq<real>, dim: nat, free: seq<nat>, slots: nat, owned: map<nat, seq<real>>, slot: nat)
    requires SlotsOk(data, dim, free, slots, owned) && dim > 0
    ensures slot * dim + dim > |data| || slot in free ==> slot !in owned && owned - {slot} == owned
    ensures slot * dim + dim <= |data| ==> slot < slots
  {
    RowFits(slot, slots, dim);
  }

  lemma GrowSlots(data: seq<real>, dim: nat, slots: nat, owned: map<nat, seq<real>>)
    requires SlotsOk(data, dim, [], slots, owned)
    ensures var after := data + Zeros(dim);
            && |after| == (slots + 1) * dim && slots !in owned
            && (forall s | 0 <= s < slots :: s in owned)
            && (forall s | s in owned ::
                  s < slots && |owned[s]| == dim && s * dim + dim <= |after| && Row(after, dim, s) == owned[s])
  {
    GrowRows(data, dim, slots);
  }

  lemma FreePush(data: seq<real>, dim: nat, free: seq<nat>, slots: nat, owned: map<nat, seq<real>>, slot: nat)
    requires SlotsOk(data, dim, free, slots, owned) && slot < slots && slot !in free
    ensures slot in owned && slot * dim + dim <= |data|
    ensures SlotsOk(Written(data, dim, slot, Zeros(dim)), dim, free + [slot], slots, owned - {slot})
  {
    WriteRow(data, dim, slots, slot, Zeros(dim));
    forall i | 0 <= i < |free| ensures free[i] != slot {
      assert free[i] in free;
    }
    assert NoRepeat(free + [slot]);
    assert forall s :: s in free + [slot] <==> s in free || s == slot;
  }
}
