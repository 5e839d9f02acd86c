/** A parameter array in the C heap: what it holds and which blocks it owns. */
module ParamArrays {
  import opened Bytes
  import opened CHeap
  import opened TypedParams

  /** The first n records of an array, as C reads them. */
  function Cells(params: Bytes, n: nat): (cells: seq<Cell>)
    requires RECORD_SIZE * n <= |params|
    ensures |cells| == n
  {
    if n == 0 then [] else Cells(params, n - 1) + [ReadCell(RecordAt(params, n - 1))]
  }

  lemma {:induction false} CellsAt(params: Bytes, n: nat, i: nat)
    requires i < n && RECORD_SIZE * n <= |params|
    ensures Cells(params, n)[i] == ReadCell(RecordAt(params, i))
  {
    hide ReadCell;
    if i == n - 1 {
    } else {
      CellsAt(params, n - 1, i);
    }
  }

  /** The cells of an array whose records from i on own nothing. */
  lemma {:induction false} BlankTail(params: Bytes, i: nat, n: nat)
    requires i <= n && RECORD_SIZE * n <= |params|
    requires forall j | i <= j < n :: !OwnsString(ReadCell(RecordAt(params, j)))
    ensures Cells(params, n)[..i] == Cells(params, i) && Blank(Cells(params, n)[i..])
  {
    hide ReadCell;
    if i == n {
    } else {
      BlankTail(params, i, n - 1);
      var c := ReadCell(RecordAt(params, n - 1));
      assert Cells(params, n)[i..] == Cells(params, n - 1)[i..] + [c];
    }
  }

  lemma {:induction false} SameCells(params: Bytes, params': Bytes, n: nat)
    requires RECORD_SIZE * n <= |params| && RECORD_SIZE * n <= |params'|
    requires forall i | 0 <= i < n :: RecordAt(params, i) == RecordAt(params', i)
    ensures Cells(params, n) == Cells(params', n)
  {
    if n == 0 {
    } else {
      SameCells(params, params', n - 1);
    }
  }

  function Owned(c: Cell): multiset<Addr> {
    if OwnsString(c) then multiset{c.long} else multiset{}
  }

  /** The string blocks the cells own, with multiplicity. */
  function Strings(cells: seq<Cell>): multiset<Addr> {
    if cells == [] then multiset{} else Owned(cells[0]) + Strings(cells[1..])
  }

  predicate AllReadable(h: Blocks, cells: seq<Cell>) {
    forall i | 0 <= i < |cells| :: Readable(h, cells[i])
  }

  /**
   * The live heap is base, the array at memory, and one terminated block for each
   * string of the cells. Counting multiplicities, the equation also says that no two
   * cells share a string and that none is in base or is the array itself.
   */
  ghost predicate Owns(h: Blocks, base: Blocks, memory: Addr, cells: seq<Cell>) {
    && memory != NULL
    && multiset(h.Keys) == multiset(base.Keys) + multiset{memory} + Strings(cells)
    && AllReadable(h, cells)
    && (forall a | a in base :: a in h && h[a] == base[a])
  }

  /** What the multiset equation says of one address p. */
  lemma OneOwned(keys: set<Addr>, base: set<Addr>, memory: Addr, p: Addr, all: multiset<Addr>)
    requires multiset(keys) == multiset(base) + multiset{memory} + all
    ensures memory in keys && memory !in base && memory !in all
    ensures p in all ==> p in keys && p !in base && p != memory && p !in all - multiset{p}
    ensures p in all ==> multiset(keys - {p}) == multiset(base) + multiset{memory} + (all - multiset{p})
    ensures all == multiset{} ==> keys - {memory} == base
  {
    assert memory in multiset(keys) && multiset(keys)[memory] == 1;
    if p in all {
      assert p in multiset(keys) && multiset(keys)[p] == 1;
      assert multiset(keys - {p}) == multiset(keys) - multiset{p};
    }
    if all == multiset{} {
      assert forall a :: a in keys <==> a in multiset(keys);
      assert forall a :: a in base <==> a in multiset(base);
    }
  }

  lemma {:induction false} OwnedInStrings(cells: seq<Cell>, i: nat)
    requires i < |cells| && OwnsString(cells[i])
    ensures cells[i].long in Strings(cells)
  {
    if i == 0 {
    } else {
      OwnedInStrings(cells[1..], i - 1);
    }
  }

  lemma {:induction false} StringsAppend(cells: seq<Cell>, c: Cell)
    ensures Strings(cells + [c]) == Strings(cells) + Owned(c)
  {
    if cells == [] {
      assert [c][1..] == [];
    } else {
      assert (cells + [c])[1..] == cells[1..] + [c];
      StringsAppend(cells[1..], c);
    }
  }

  /** Freeing the string of the first cell leaves exactly the rest owned. */
  lemma ReleaseCell(h: Blocks, base: Blocks, memory: Addr, cells: seq<Cell>)
    requires Owns(h, base, memory, cells) && cells != []
    ensures var c := cells[0];
            if OwnsString(c) then c.long in h && Owns(h - {c.long}, base, memory, cells[1..])
            else Owns(h, base, memory, cells[1..])
  {
    var p, rest := cells[0].long, cells[1..];
    if OwnsString(cells[0]) {
      OneOwned(h.Keys, base.Keys, memory, p, Strings(cells));
      assert (h - {p}).Keys == h.Keys - {p} && Strings(cells) - multiset{p} == Strings(rest);
      forall i | 0 <= i < |rest| ensures Readable(h - {p}, rest[i]) {
        assert Readable(h, cells[i + 1]);
        if OwnsString(rest[i]) {
          OwnedInStrings(rest, i);
        }
      }
    } else {
      forall i | 0 <= i < |rest| ensures Readable(h, rest[i]) {
        assert Readable(h, cells[i + 1]);
      }
    }
  }

  predicate Blank(cells: seq<Cell>) {
    forall i | 0 <= i < |cells| :: !OwnsString(cells[i])
  }

  /** Cells that own nothing can be counted in. */
  lemma {:induction false} ExtendBlank(h: Blocks, base: Blocks, memory: Addr, cells: seq<Cell>, blank: seq<Cell>)
    requires Owns(h, base, memory, cells)
    requires Blank(blank)
    ensures Owns(h, base, memory, cells + blank)
  {
    hide Strings, Terminated;
    if blank == [] {
      assert cells + blank == cells;
    } else {
      var last := blank[|blank| - 1];
      ExtendBlank(h, base, memory, cells, blank[..|blank| - 1]);
      StringsAppend(cells + blank[..|blank| - 1], last);
      assert cells + blank == cells + blank[..|blank| - 1] + [last];
    }
  }

  // ----- What an array holds -----

  /** Decodes in order and stops at the first cell of unknown type. */
  function DecodeAll(h: Blocks, cells: seq<Cell>): (r: Result<seq<TypedParameter>>)
    requires AllReadable(h, cells)
    ensures r.Ok? ==> |r.value| == |cells|
  {
    if cells == [] then Ok([])
    else
      match DecodeAll(h, cells[..|cells| - 1])
      case Err(e) => Err(e)
      case Ok(qs) =>
        match Decode(h, cells[|cells| - 1])
        case Err(e) => Err(e)
        case Ok(q) => Ok(qs + [q])
  }

  /** The list is the cells' decodings in order; it fails iff some cell has an unknown type. */
  lemma {:induction false} DecodeAllMeaning(h: Blocks, cells: seq<Cell>)
    requires AllReadable(h, cells)
    ensures var r := DecodeAll(h, cells);
            && (r.Ok? ==> forall i | 0 <= i < |cells| :: Decode(h, cells[i]) == Ok(r.value[i]))
            && (r.Err? <==> exists i :: 0 <= i < |cells| && Decode(h, cells[i]).Err?)
  {
    if cells == [] {
    } else {
      var init := cells[..|cells| - 1];
      DecodeAllMeaning(h, init);
      if DecodeAll(h, init).Err? {
        var i :| 0 <= i < |init| && Decode(h, init[i]).Err?;
        assert Decode(h, cells[i]).Err?;
      }
    }
  }

  /** Decoding reads only the strings the cells own. */
  lemma {:induction false} DecodeFrame(h: Blocks, h': Blocks, cells: seq<Cell>)
    requires AllReadable(h, cells)
    requires forall i | 0 <= i < |cells| && OwnsString(cells[i]) ::
               cells[i].long in h && cells[i].long in h' && h'[cells[i].long] == h[cells[i].long]
    ensures AllReadable(h', cells) && DecodeAll(h', cells) == DecodeAll(h, cells)
  {
    forall i | 0 <= i < |cells| ensures Readable(h', cells[i]) {
      assert Readable(h, cells[i]);
    }
    if cells == [] {
    } else {
      DecodeFrame(h, h', cells[..|cells| - 1]);
    }
  }

  /** The strings of an owned array are not the array, so writing the array leaves them alone. */
  lemma OwnedStringsStay(h: Blocks, h': Blocks, base: Blocks, memory: Addr, cells: seq<Cell>)
    requires Owns(h, base, memory, cells)
    requires forall a | a in h && a != memory :: a in h' && h'[a] == h[a]
    ensures AllReadable(h', cells) && DecodeAll(h', cells) == DecodeAll(h, cells)
    ensures forall a | a in base :: a in h' && h'[a] == base[a]
    ensures forall i | 0 <= i < |cells| && OwnsString(cells[i]) ::
              cells[i].long in h && cells[i].long in h' && h'[cells[i].long] == h[cells[i].long]
  {
    forall i | 0 <= i < |cells| && OwnsString(cells[i]) ensures cells[i].long in h && cells[i].long != memory {
      OwnedInStrings(cells, i);
      OneOwned(h.Keys, base.Keys, memory, cells[i].long, Strings(cells));
    }
    OneOwned(h.Keys, base.Keys, memory, memory, Strings(cells));
    DecodeFrame(h, h', cells);
  }

  predicate AllEncode(h: Blocks, cells: seq<Cell>, qs: seq<TypedParameter>) {
    |cells| == |qs| && forall i | 0 <= i < |cells| :: Canonical(qs[i]) && Encodes(h, cells[i], qs[i])
  }

  /** cells encode qs, decode to qs, and the array owns exactly their strings. */
  ghost predicate Holds(h: Blocks, base: Blocks, memory: Addr, cells: seq<Cell>, qs: seq<TypedParameter>) {
    Owns(h, base, memory, cells) && AllEncode(h, cells, qs) && DecodeAll(h, cells) == Ok(qs)
  }

  lemma EncodingStays(h: Blocks, h': Blocks, base: Blocks, memory: Addr, cells: seq<Cell>, qs: seq<TypedParameter>)
    requires Holds(h, base, memory, cells, qs)
    requires forall a | a in h && a != memory :: a in h' && h'[a] == h[a]
    ensures AllEncode(h', cells, qs)
  {
    hide Encodes, Canonical, OwnsString;
    OwnedStringsStay(h, h', base, memory, cells);
    forall i | 0 <= i < |cells| ensures Encodes(h', cells[i], qs[i]) {
      EncodesFrame(h, h', cells[i], qs[i]);
    }
  }

  lemma NewBlock(h: Blocks, h': Blocks, memory: Addr, c: Cell)
    requires if OwnsString(c) then c.long !in h && h'.Keys == h.Keys + {c.long} else h'.Keys == h.Keys
    ensures multiset(h'.Keys) == multiset(h.Keys) + Owned(c)
  {
  }

  /** The array was written and c's string, if any, put in a new block; all else is as it was. */
  ghost predicate Extends(h: Blocks, h': Blocks, memory: Addr, c: Cell) {
    && memory in h && memory in h'
    && if OwnsString(c) then c.long !in h && c.long in h' && h' == h[c.long := h'[c.long]][memory := h'[memory]]
       else h' == h[memory := h'[memory]]
  }

  lemma AppendOwned(h: Blocks, h': Blocks, base: Blocks, memory: Addr,
                    cells: seq<Cell>, qs: seq<TypedParameter>, c: Cell, q: TypedParameter)
    requires Holds(h, base, memory, cells, qs)
    requires Canonical(q) && Encodes(h', c, q)
    requires multiset(h'.Keys) == multiset(h.Keys) + Owned(c)
    requires forall a | a in h && a != memory :: a in h' && h'[a] == h[a]
    ensures Holds(h', base, memory, cells + [c], qs + [q])
  {
    hide Decode, Encodes, Canonical, OwnsString, Strings, Owned, Readable;
    OwnedStringsStay(h, h', base, memory, cells);
    EncodingStays(h, h', base, memory, cells, qs);
    EncodesDecodes(h', c, q);
    StringsAppend(cells, c);
    assert (cells + [c])[..|cells|] == cells;
  }

  /** A further cell encoding q, with its string in a new block, makes one more parameter. */
  lemma AppendCell(h: Blocks, h': Blocks, base: Blocks, memory: Addr,
                   cells: seq<Cell>, qs: seq<TypedParameter>, c: Cell, q: TypedParameter)
    requires Holds(h, base, memory, cells, qs)
    requires Canonical(q) && Encodes(h', c, q) && Extends(h, h', memory, c)
    ensures Holds(h', base, memory, cells + [c], qs + [q])
  {
    assert multiset(h'.Keys) == multiset(h.Keys) + Owned(c) by {
      assert h'.Keys == h.Keys + (if OwnsString(c) then {c.long} else {});
      NewBlock(h, h', memory, c);
    }
    AppendOwned(h, h', base, memory, cells, qs, c, q);
  }

  /** Moving the array to another block moves nothing it owns. */
  lemma MoveArray(h: Blocks, h': Blocks, base: Blocks, memory: Addr, memory': Addr,
                  cells: seq<Cell>, qs: seq<TypedParameter>)
    requires Holds(h, base, memory, cells, qs)
    requires memory' != NULL && memory' !in h && memory' in h' && h' == (h - {memory})[memory' := h'[memory']]
    ensures Holds(h', base, memory', cells, qs)
  {
    OwnedStringsStay(h, h', base, memory, cells);
    EncodingStays(h, h', base, memory, cells, qs);
    assert h'.Keys == h.Keys - {memory} + {memory'};
    OneOwned(h.Keys, base.Keys, memory, memory, Strings(cells));
    assert multiset(h'.Keys) == multiset(h.Keys) - multiset{memory} + multiset{memory'};
  }

  lemma NewArray(h: Blocks, base: Blocks, memory: Addr)
    requires memory != NULL && memory !in base && memory in h && h == base[memory := h[memory]]
    ensures Holds(h, base, memory, [], [])
  {
    assert h.Keys == base.Keys + {memory};
    assert multiset(h.Keys) == multiset(base.Keys) + multiset{memory};
  }
}
