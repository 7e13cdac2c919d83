/** The scatter-gather page iterator, the mapping iterator on it, and sg_copy_buffer: a
    cursor that goes page by page through a list of memory ranges. */
module ScatterGather {

  type Byte = b: int | 0 <= b < 256

  /** An entry: length bytes from offset in its first page on, over consecutive pages. */
  datatype Entry = Entry(page: nat, offset: nat, length: nat)

  /** sg_page_count: the pages an entry touches. */
  function PageCount(e: Entry, size: nat): nat
    requires size > 0
  {
    (e.offset + e.length + size - 1) / size
  }

  function Start(e: Entry, size: nat): nat { e.page * size + e.offset }

  /** The bytes the list stands for, one after the other. */
  function Flat(mem: seq<Byte>, list: seq<Entry>, size: nat): seq<Byte>
    requires InMemory(mem, list, size)
  {
    if list == [] then []
    else mem[Start(list[0], size)..Start(list[0], size) + list[0].length] + Flat(mem, list[1..], size)
  }

  predicate InMemory(mem: seq<Byte>, list: seq<Entry>, size: nat) {
    forall e :: e in list ==> Start(e, size) + e.length <= |mem|
  }

  function Total(list: seq<Entry>): nat {
    if list == [] then 0 else list[0].length + Total(list[1..])
  }

  /** The bytes before entry i. */
  function Base(list: seq<Entry>, i: nat): nat
    requires i <= |list|
  {
    if i == 0 then 0 else Base(list, i - 1) + list[i - 1].length
  }

  lemma {:induction false} BaseTail(list: seq<Entry>, i: nat)
    requires 0 < i <= |list|
    ensures Base(list, i) == list[0].length + Base(list[1..], i - 1)
  {
    if i > 1 {
      BaseTail(list, i - 1);
    }
  }

  lemma {:induction false} BaseTotal(list: seq<Entry>)
    ensures Base(list, |list|) == Total(list)
  {
    if list != [] {
      BaseTail(list, |list|);
      BaseTotal(list[1..]);
    }
  }

  lemma {:induction false} BaseGrows(list: seq<Entry>, i: nat, j: nat)
    requires i <= j <= |list|
    ensures Base(list, i) <= Base(list, j)
  {
    if i < j {
      BaseGrows(list, i, j - 1);
    }
  }

  lemma {:induction false} FlatLength(mem: seq<Byte>, list: seq<Entry>, size: nat)
    requires InMemory(mem, list, size)
    ensures |Flat(mem, list, size)| == Total(list)
  {
    if list != [] {
      assert list[0] in list && forall e :: e in list[1..] ==> e in list;
      FlatLength(mem, list[1..], size);
    }
  }

  /** The address of byte x of the flat string. */
  function Address(list: seq<Entry>, size: nat, x: nat): nat
    requires x < Total(list)
  {
    if x < list[0].length then Start(list[0], size) + x else Address(list[1..], size, x - list[0].length)
  }

  lemma {:induction false} FlatAt(mem: seq<Byte>, list: seq<Entry>, size: nat, x: nat)
    requires InMemory(mem, list, size) && x < Total(list)
    ensures |Flat(mem, list, size)| == Total(list) && Address(list, size, x) < |mem|
    ensures Flat(mem, list, size)[x] == mem[Address(list, size, x)]
  {
    FlatLength(mem, list, size);
    assert list[0] in list && forall e :: e in list[1..] ==> e in list;
    if x >= list[0].length {
      FlatAt(mem, list[1..], size, x - list[0].length);
    }
  }

  /** The bytes of an entry have consecutive addresses. */
  lemma {:induction false} AddressIn(list: seq<Entry>, size: nat, i: nat, k: nat)
    requires i < |list| && k < list[i].length
    ensures Base(list, i) + k < Total(list) && Address(list, size, Base(list, i) + k) == Start(list[i], size) + k
  {
    hide Start;
    if i == 0 {
      assert Base(list, 0) == 0;
    } else {
      BaseTail(list, i);
      AddressIn(list[1..], size, i - 1, k);
    }
  }

  lemma {:induction false} Locate(list: seq<Entry>, x: nat) returns (i: nat, k: nat)
    requires x < Total(list)
    ensures i < |list| && k < list[i].length && x == Base(list, i) + k
  {
    if x < list[0].length {
      i, k := 0, x;
      assert Base(list, 0) == 0;
    } else {
      i, k := Locate(list[1..], x - list[0].length);
      i := i + 1;
      BaseTail(list, i);
    }
  }

  /** A piece of one entry is a piece of the flat string. */
  lemma PieceOfFlat(mem: seq<Byte>, list: seq<Entry>, size: nat, i: nat, k: nat, n: nat)
    requires InMemory(mem, list, size) && i < |list| && k + n <= list[i].length
    ensures |Flat(mem, list, size)| == Total(list) && Base(list, i) + k + n <= Total(list)
    ensures Start(list[i], size) + k + n <= |mem|
    ensures mem[Start(list[i], size) + k..Start(list[i], size) + k + n]
         == Flat(mem, list, size)[Base(list, i) + k..Base(list, i) + k + n]
  {
    hide *;
    FlatLength(mem, list, size);
    BaseFits(list, i);
    EntryFits(mem, list, size, i);
    var a, b, flat := Start(list[i], size) + k, Base(list, i) + k, Flat(mem, list, size);
    forall j | a <= j < a + n ensures mem[j] == flat[j - a + b] {
      AddressIn(list, size, i, k + (j - a));
      FlatAt(mem, list, size, b + (j - a));
    }
    SamePiece(mem, a, flat, b, n);
  }

  lemma BaseFits(list: seq<Entry>, i: nat)
    requires i < |list|
    ensures Base(list, i) + list[i].length <= Total(list)
  {
    hide *;
    BaseTotal(list);
    BaseNext(list, i);
    BaseGrows(list, i + 1, |list|);
  }

  lemma EntryFits(mem: seq<Byte>, list: seq<Entry>, size: nat, i: nat)
    requires InMemory(mem, list, size) && i < |list|
    ensures Start(list[i], size) + list[i].length <= |mem|
  {
    hide Start;
    assert list[i] in list;
  }

  lemma SamePiece(s: seq<Byte>, a: nat, t: seq<Byte>, b: nat, n: nat)
    requires a + n <= |s| && b + n <= |t| && forall j :: a <= j < a + n ==> s[j] == t[j - a + b]
    ensures s[a..a + n] == t[b..b + n]
  {
    var u, v := s[a..a + n], t[b..b + n];
    forall k | 0 <= k < n ensures u[k] == v[k] {
      assert s[a + k] == t[a + k - a + b];
    }
  }

  /** No byte of memory belongs to two entries. */
  predicate Disjoint(list: seq<Entry>, size: nat) {
    forall i, j :: 0 <= i < j < |list| ==> Apart(list[i], list[j], size)
  }

  predicate Apart(d: Entry, e: Entry, size: nat) {
    Start(d, size) + d.length <= Start(e, size) || Start(e, size) + e.length <= Start(d, size)
  }

  /** mem with data put at address a. */
  function Patched(mem: seq<Byte>, a: nat, data: seq<Byte>): (r: seq<Byte>)
    requires data == [] || a + |data| <= |mem|
    ensures |r| == |mem| && forall j :: 0 <= j < |mem| ==> r[j] == if a <= j < a + |data| then data[j - a] else mem[j]
  {
    if data == [] then mem else mem[..a] + data + mem[a + |data|..]
  }

  /** Writing a piece of one entry writes that piece of the flat string. */
  lemma WritePiece(mem: seq<Byte>, list: seq<Entry>, size: nat, i: nat, k: nat, data: seq<Byte>)
    requires InMemory(mem, list, size) && Disjoint(list, size) && i < |list| && k + |data| <= list[i].length
    ensures Start(list[i], size) + k + |data| <= |mem|
    ensures Base(list, i) + k + |data| <= |Flat(mem, list, size)|
    ensures Flat(Patched(mem, Start(list[i], size) + k, data), list, size)
         == Patched(Flat(mem, list, size), Base(list, i) + k, data)
  {
    hide *;
    PieceOfFlat(mem, list, size, i, k, |data|);
    var a, b := Start(list[i], size) + k, Base(list, i) + k;
    var now := Patched(mem, a, data);
    StillInMemory(mem, now, list, size);
    FlatLength(now, list, size);
    var new_, was := Flat(now, list, size), Flat(mem, list, size);
    forall x | 0 <= x < |was| ensures new_[x] == if b <= x < b + |data| then data[x - b] else was[x] {
      var j, m := Locate(list, x);
      AddressIn(list, size, j, m);
      FlatAt(mem, list, size, x);
      FlatAt(now, list, size, x);
      if j != i {
        ApartFrom(list, size, i, j);
        BaseApart(list, i, j);
      }
    }
  }

  lemma StillInMemory(mem: seq<Byte>, now: seq<Byte>, list: seq<Entry>, size: nat)
    requires InMemory(mem, list, size) && |now| == |mem|
    ensures InMemory(now, list, size)
  {
    hide Start;
  }

  lemma ApartFrom(list: seq<Entry>, size: nat, i: nat, j: nat)
    requires Disjoint(list, size) && i < |list| && j < |list| && i != j
    ensures Start(list[i], size) + list[i].length <= Start(list[j], size)
         || Start(list[j], size) + list[j].length <= Start(list[i], size)
  {
    hide Start;
    assert i < j || j < i;
  }

  lemma BaseApart(list: seq<Entry>, i: nat, j: nat)
    requires i < |list| && j < |list| && i != j
    ensures Base(list, i) + list[i].length <= Base(list, j) || Base(list, j) + list[j].length <= Base(list, i)
  {
    if i < j {
      BaseGrows(list, i + 1, j);
    } else {
      BaseGrows(list, j + 1, i);
    }
  }

  // ----- pages -----

  lemma Multiply(a: nat, b: nat, size: nat)
    requires a < b
    ensures a * size + size <= b * size
  {
    assert b * size == a * size + size + (b - a - 1) * size;
  }

  function Bytes(pages: nat, size: nat): nat { pages * size }

  /** The last page of an entry is the one its last byte is on. */
  lemma PagesCover(e: Entry, size: nat, page: nat)
    requires size > 0
    ensures page < PageCount(e, size) <==> Bytes(page, size) < e.offset + e.length
  {
    var t, n := e.offset + e.length, PageCount(e, size);
    assert n * size <= t + size - 1 < n * size + size by {
      DivFacts(t + size - 1, size);
    }
    if page < n {
      Multiply(page, n, size);
    } else if page > n {
      Multiply(n, page, size);
    }
  }

  lemma DivFacts(x: nat, size: nat)
    requires size > 0
    ensures (x / size) * size <= x < (x / size) * size + size
  {}

  // ----- the iterators -----

  function Min(a: nat, b: nat): nat { if a < b then a else b }

  /** struct sg_mapping_iter, with the page iterator in it.  sg counts the entries that
      have been left; past the last entry there is none. */
  class MappingIter {
    const list: seq<Entry>
    const size: nat
    var sg: nat
    var nents: nat
    var pgoffset: nat
    var advance: nat
    var offset: nat
    var remaining: nat
    var mapped: bool
    var addr: nat
    var length: nat
    var consumed: nat

    /** What the iterator goes through: at most nents entries. */
    ghost const all: seq<Entry>

    /** The place in the flat string of the first byte not yet passed. */
    ghost function At(): int
      reads this
    {
      if advance == 0 then 0
      else if sg < |all| && nents > 0 then Base(all, sg) + Bytes(pgoffset, size) + offset - all[sg].offset
      else Base(all, |all|)
    }

    /** On a page: offset and remaining delimit what is left of the entry there. */
    ghost predicate OnPage()
      reads this
    {
      && sg < |all| && nents > 0 && size > 0
      && offset + remaining <= size && Bytes(pgoffset, size) < all[sg].offset + all[sg].length
      && Bytes(pgoffset, size) + offset + remaining <= all[sg].offset + all[sg].length
      && (pgoffset == 0 ==> offset >= all[sg].offset)
      && (Bytes(pgoffset, size) + offset + remaining == all[sg].offset + all[sg].length
          || offset + remaining == size)
    }

    ghost predicate Started()
      reads this
    {
      advance == 0 && sg == 0 && pgoffset == 0 && remaining == 0
    }

    ghost predicate Ended()
      reads this
    {
      advance == 1 && remaining == 0 && (nents == 0 || sg == |list|) && sg == |all|
    }

    /** The iterator is at a place in the list. */
    ghost predicate Placed()
      reads this
    {
      && size > 0 && sg <= |all| <= |list| && all == list[..|all|]
      && (nents > 0 ==> |all| == Min(|list|, sg + nents)) && (nents == 0 ==> sg == |all|)
      && (forall e :: e in all ==> e.offset < size)
      && (Started() || Ended() || (advance == 1 && OnPage()))
    }

    /** The iterator, with nothing mapped. */
    ghost predicate Valid()
      reads this
    {
      Placed() && !mapped
    }

    /** Mapped: addr and length are what is left of the entry on this page. */
    ghost predicate Mapped()
      reads this
    {
      && Placed() && mapped && advance == 1 && OnPage() && length == remaining && consumed <= length
      && Base(all, sg) <= At() && At() - Base(all, sg) + length <= all[sg].length
      && addr == Start(all[sg], size) + (At() - Base(all, sg))
    }

    /** The place that stopping leaves the iterator at. */
    ghost function Reached(): int
      reads this
    {
      At() + if mapped then consumed else 0
    }

    /** backport_sg_miter_start. */
    constructor (sgl: seq<Entry>, count: nat, pageSize: nat)
      requires pageSize > 0 && forall e :: e in sgl ==> e.offset < pageSize
      ensures Valid() && At() == 0 && list == sgl && size == pageSize && all == sgl[..Min(|sgl|, count)]
      ensures fresh(this)
    {
      list, size, all := sgl, pageSize, sgl[..Min(|sgl|, count)];
      sg, nents, pgoffset, advance := 0, count, 0, 0;
      offset, remaining, mapped, addr, length, consumed := 0, 0, false, 0, 0, 0;
    }

    /** __sg_page_iter_next. */
    method PageNext() returns (ok: bool)
      requires Valid() && remaining == 0
      modifies this`sg, this`nents, this`pgoffset, this`advance
      ensures sg <= |all| && (nents > 0 ==> |all| == Min(|list|, sg + nents)) && (nents == 0 ==> sg == |all|)
      ensures !ok ==> old(At()) == Base(all, |all|) && (Started() || Ended()) && (Started() ==> |all| == 0)
      ensures ok ==> old(sg) <= sg && (sg == old(sg) && old(advance) == 1 ==> pgoffset > 0)
      ensures ok ==> advance == 1 && sg < |all| && nents > 0 && Bytes(pgoffset, size) < all[sg].offset + all[sg].length
      ensures ok ==> old(At()) == Base(all, sg) + (if pgoffset == 0 then 0 else Bytes(pgoffset, size) - all[sg].offset)
    {
      hide Bytes; hide PageCount; hide Base;
      BaseStart(all);
      if nents == 0 || sg == |list| {
        return false;
      }
      ghost var at := At();
      assert all[sg] == list[sg];
      if advance == 1 {
        TurnPage(list[sg], size, pgoffset, offset);
      }
      pgoffset := pgoffset + advance;
      advance := 1;
      while pgoffset >= PageCount(list[sg], size)
        invariant advance == 1 && sg < |all| && nents > 0 && |all| == Min(|list|, sg + nents)
        invariant old(sg) <= sg && (sg == old(sg) && old(advance) == 1 ==> pgoffset > 0)
        invariant pgoffset <= PageCount(list[sg], size) || pgoffset == 0
        invariant pgoffset == 0 ==> at == Base(all, sg)
        invariant 0 < pgoffset < PageCount(list[sg], size) ==> at == Base(all, sg) + Bytes(pgoffset, size) - all[sg].offset
        invariant 0 < pgoffset == PageCount(list[sg], size) ==> at == Base(all, sg) + all[sg].length
        decreases |list| - sg
      {
        assert all[sg] == list[sg];
        if pgoffset == 0 {
          PagesCover(list[sg], size, 0);
          NoBytes(size);
        }
        BaseNext(all, sg);
        pgoffset := pgoffset - PageCount(list[sg], size);
        sg := sg + 1;
        nents := nents - 1;
        assert at == Base(all, sg);
        if nents == 0 || sg == |list| {
          return false;
        }
      }
      assert all[sg] == list[sg];
      PagesCover(list[sg], size, pgoffset);
      return true;
    }

    /** sg_miter_get_next_page: to the next page that has data, if the last one is used up. */
    method GetNextPage() returns (ok: bool)
      requires Valid()
      modifies this`sg, this`nents, this`pgoffset, this`advance, this`offset, this`remaining
      ensures Valid() && At() == old(At())
      ensures ok ==> advance == 1 && OnPage()
      ensures ok && remaining == 0 ==> sg > old(sg) || (sg == old(sg) && old(advance) == 0)
      ensures ok ==> sg >= old(sg)
      ensures !ok ==> remaining == 0 && At() == Base(all, |all|)
    {
      if remaining == 0 {
        ghost var at := At();
        ok := PageNext();
        if !ok {
          return false;
        }
        assert all[sg] == list[sg];
        offset := if pgoffset != 0 then 0 else list[sg].offset;
        remaining := list[sg].offset + list[sg].length - Bytes(pgoffset, size) - offset;
        remaining := Min(remaining, size - offset);
        NoBytes(size);
      }
      return true;
    }

    lemma AtWithin()
      requires Placed()
      ensures At() <= Base(all, |all|)
    {
      hide Bytes;
      if sg < |all| {
        BaseNext(all, sg);
        BaseGrows(all, sg + 1, |all|);
      }
    }

    /** backport_sg_miter_stop. */
    method Stop()
      requires Valid() || Mapped()
      modifies this`offset, this`remaining, this`mapped, this`addr, this`length, this`consumed
      ensures Valid() && At() == old(Reached()) && sg == old(sg) && advance == old(advance)
    {
      if mapped {
        offset := offset + consumed;
        remaining := remaining - consumed;
        mapped, addr, length, consumed := false, 0, 0, 0;
      }
    }

    /** backport_sg_miter_next. */
    method Next() returns (ok: bool)
      requires Valid() || Mapped()
      modifies this
      ensures ok ==> Mapped() && At() == old(Reached()) && consumed == length
      ensures ok && length == 0 ==> sg > old(sg) || (sg == old(sg) && old(advance) == 0)
      ensures ok ==> sg >= old(sg)
      ensures !ok ==> Valid() && old(Reached()) == Base(all, |all|)
    {
      hide Bytes; hide PageCount; hide Base; hide Start;
      Stop();
      ok := GetNextPage();
      if !ok {
        return false;
      }
      assert list[sg] == all[sg];
      PageAddress(list[sg], size, pgoffset, offset);
      NoBytes(size);
      SomeBytes(pgoffset, size);
      mapped := true;
      consumed, length := remaining, remaining;
      addr := (list[sg].page + pgoffset) * size + offset;
    }

    /** sg_miter_skip. */
    method Skip(count: nat) returns (ok: bool)
      requires Valid() || Mapped()
      modifies this
      ensures Valid()
      ensures ok ==> At() == old(Reached()) + count && At() <= Base(all, |all|)
      ensures !ok ==> old(Reached()) + count > Base(all, |all|)
    {
      Stop();
      var left := count;
      while left > 0
        invariant Valid() && At() == old(Reached()) + count - left
        decreases left, |all| - sg, 1 - advance
      {
        var more := GetNextPage();
        if !more {
          return false;
        }
        var step := Min(left, remaining);
        offset := offset + step;
        remaining := remaining - step;
        left := left - step;
      }
      AtWithin();
      return true;
    }
  }

  /** The kernel address of a place on a page of an entry. */
  lemma PageAddress(e: Entry, size: nat, page: nat, offset: nat)
    ensures (e.page + page) * size + offset == Start(e, size) + (Bytes(page, size) + offset - e.offset)
  {}

  lemma NoBytes(size: nat)
    ensures Bytes(0, size) == 0
  {}

  lemma SomeBytes(pages: nat, size: nat)
    ensures pages > 0 ==> Bytes(pages, size) >= size
  {
    if pages > 0 {
      assert pages * size == (pages - 1) * size + size;
    }
  }

  lemma BaseStart(list: seq<Entry>)
    ensures Base(list, 0) == 0
  {}

  lemma BaseNext(list: seq<Entry>, i: nat)
    requires i < |list|
    ensures Base(list, i + 1) == Base(list, i) + list[i].length
  {}

  /** Where a used-up page ends: at the next page, or at the end of the entry. */
  lemma TurnPage(e: Entry, size: nat, page: nat, offset: nat)
    requires size > 0 && offset <= size && Bytes(page, size) < e.offset + e.length
    requires Bytes(page, size) + offset <= e.offset + e.length
    requires Bytes(page, size) + offset == e.offset + e.length || offset == size
    ensures page < PageCount(e, size)
    ensures page + 1 < PageCount(e, size) ==> Bytes(page, size) + offset == Bytes(page + 1, size)
    ensures page + 1 == PageCount(e, size) ==> Bytes(page, size) + offset == e.offset + e.length
  {
    PagesCover(e, size, page);
    PagesCover(e, size, page + 1);
    assert Bytes(page + 1, size) == Bytes(page, size) + size;
    hide Bytes; hide PageCount;
  }

  // ----- sg_copy_buffer -----

  /** The bytes from skip on, n of them if there are that many. */
  function Slice(flat: seq<Byte>, skip: nat, n: nat): seq<Byte> {
    if skip >= |flat| then [] else flat[skip..skip + Min(n, |flat| - skip)]
  }

  /** The entries a count of entries limits the list to. */
  function Limited(list: seq<Entry>, count: nat): seq<Entry> { list[..Min(|list|, count)] }

  /** memcpy from a place in one array to a place in another. */
  method CopyBytes(dst: array<Byte>, to: nat, src: array<Byte>, from: nat, len: nat)
    requires dst != src && to + len <= dst.Length && from + len <= src.Length
    modifies dst
    ensures dst[..] == Patched(old(dst[..]), to, src[from..from + len])
  {
    forall i | 0 <= i < len {
      dst[to + i] := src[from + i];
    }
  }

  /** The bytes that belong to no entry are as they were. */
  ghost predicate OthersKept(was: seq<Byte>, now: seq<Byte>, list: seq<Entry>, size: nat) {
    |was| == |now| && forall a :: 0 <= a < |was| && Unowned(list, size, a) ==> now[a] == was[a]
  }

  ghost predicate Unowned(list: seq<Entry>, size: nat, a: nat) {
    forall e :: e in list ==> !(Start(e, size) <= a < Start(e, size) + e.length)
  }

  /** What has been copied when offset bytes have. */
  ghost predicate Copied(toBuffer: bool, mem0: seq<Byte>, mem: seq<Byte>, buf0: seq<Byte>, buf: seq<Byte>,
                         all: seq<Entry>, size: nat, skip: nat, offset: nat)
    requires InMemory(mem0, all, size)
  {
    && |mem| == |mem0| && |buf| == |buf0| && offset <= |buf| && skip + offset <= Total(all)
    && |Flat(mem0, all, size)| == Total(all) && InMemory(mem, all, size)
    && (if toBuffer then mem == mem0 && buf == Patched(buf0, 0, Flat(mem0, all, size)[skip..skip + offset])
        else
          && buf == buf0 && OthersKept(mem0, mem, all, size)
          && (Disjoint(all, size) ==> Flat(mem, all, size) == Patched(Flat(mem0, all, size), skip, buf0[..offset])))
  }

  lemma CopiedNone(toBuffer: bool, mem: seq<Byte>, buf: seq<Byte>, all: seq<Entry>, size: nat, skip: nat)
    requires InMemory(mem, all, size) && skip <= Total(all)
    ensures Copied(toBuffer, mem, mem, buf, buf, all, size, skip, 0)
  {
    FlatLength(mem, all, size);
  }

  lemma CopiedMore(toBuffer: bool, mem0: seq<Byte>, mem: seq<Byte>, buf0: seq<Byte>, buf: seq<Byte>, all: seq<Entry>,
                   size: nat, skip: nat, offset: nat, i: nat, k: nat, len: nat)
    requires InMemory(mem0, all, size) && Copied(toBuffer, mem0, mem, buf0, buf, all, size, skip, offset)
    requires i < |all| && k + len <= all[i].length && skip + offset == Base(all, i) + k && offset + len <= |buf|
    ensures Start(all[i], size) + k + len <= |mem|
    ensures var a := Start(all[i], size) + k;
            (toBuffer ==> Copied(true, mem0, mem, buf0, Patched(buf, offset, mem[a..a + len]), all, size, skip, offset + len))
    ensures var a := Start(all[i], size) + k;
            (!toBuffer ==>
              Copied(false, mem0, Patched(mem, a, buf[offset..offset + len]), buf0, buf, all, size, skip, offset + len))
  {
    hide *;
    var a := Start(all[i], size) + k;
    SameLength(toBuffer, mem0, mem, buf0, buf, all, size, skip, offset);
    PieceOfFlat(mem, all, size, i, k, len);
    if toBuffer {
      CopiedOut(mem0, buf0, buf, all, size, skip, offset, a, len);
    } else {
      CopiedIn(mem0, mem, buf0, all, size, skip, offset, i, k, len);
    }
  }

  lemma CopiedOut(mem: seq<Byte>, buf0: seq<Byte>, buf: seq<Byte>, all: seq<Entry>, size: nat, skip: nat, offset: nat,
                  a: nat, len: nat)
    requires InMemory(mem, all, size) && Copied(true, mem, mem, buf0, buf, all, size, skip, offset)
    requires a + len <= |mem| && offset + len <= |buf| && skip + offset + len <= Total(all)
    requires mem[a..a + len] == Flat(mem, all, size)[skip + offset..skip + offset + len]
    ensures Copied(true, mem, mem, buf0, Patched(buf, offset, mem[a..a + len]), all, size, skip, offset + len)
  {
    var flat := Flat(mem, all, size);
    hide Flat; hide Total; hide InMemory; hide OthersKept; hide Disjoint; hide Patched;
    var f := flat[skip..skip + offset];
    assert flat[skip..skip + offset + len] == f + mem[a..a + len];
    PatchTwice(buf0, 0, f, mem[a..a + len]);
  }

  /** Two writes side by side are one. */
  lemma PatchTwice(s: seq<Byte>, a: nat, x: seq<Byte>, y: seq<Byte>)
    requires a + |x| + |y| <= |s|
    ensures Patched(Patched(s, a, x), a + |x|, y) == Patched(s, a, x + y)
  {}

  lemma CopiedIn(mem0: seq<Byte>, mem: seq<Byte>, buf: seq<Byte>, all: seq<Entry>, size: nat, skip: nat, offset: nat,
                 i: nat, k: nat, len: nat)
    requires InMemory(mem0, all, size) && Copied(false, mem0, mem, buf, buf, all, size, skip, offset)
    requires i < |all| && k + len <= all[i].length && skip + offset == Base(all, i) + k && offset + len <= |buf|
    requires Start(all[i], size) + k + len <= |mem| && skip + offset + len <= Total(all)
    ensures var now := Patched(mem, Start(all[i], size) + k, buf[offset..offset + len]);
            Copied(false, mem0, now, buf, buf, all, size, skip, offset + len)
  {
    hide *;
    CopiedInIs(mem0, mem, buf, all, size, skip, offset);
    var a, data := Start(all[i], size) + k, buf[offset..offset + len];
    var now := Patched(mem, a, data);
    StillInMemory(mem, now, all, size);
    OwnedWrite(mem0, mem, all, size, i, k, data);
    if Disjoint(all, size) {
      WritePiece(mem, all, size, i, k, data);
      PatchTwice(Flat(mem0, all, size), skip, buf[..offset], data);
      assert buf[..offset] + data == buf[..offset + len];
    }
    CopiedInIs(mem0, now, buf, all, size, skip, offset + len);
  }

  lemma CopiedInIs(mem0: seq<Byte>, mem: seq<Byte>, buf: seq<Byte>, all: seq<Entry>, size: nat, skip: nat, offset: nat)
    requires InMemory(mem0, all, size)
    ensures Copied(false, mem0, mem, buf, buf, all, size, skip, offset) <==>
      && |mem| == |mem0| && offset <= |buf| && skip + offset <= Total(all) && |Flat(mem0, all, size)| == Total(all)
      && InMemory(mem, all, size) && OthersKept(mem0, mem, all, size)
      && (Disjoint(all, size) ==> Flat(mem, all, size) == Patched(Flat(mem0, all, size), skip, buf[..offset]))
  {
    hide Flat; hide Total; hide InMemory; hide OthersKept; hide Disjoint; hide Patched;
  }

  lemma OwnedWrite(mem0: seq<Byte>, mem: seq<Byte>, all: seq<Entry>, size: nat, i: nat, k: nat, data: seq<Byte>)
    requires OthersKept(mem0, mem, all, size) && i < |all| && k + |data| <= all[i].length
    requires Start(all[i], size) + k + |data| <= |mem|
    ensures OthersKept(mem0, Patched(mem, Start(all[i], size) + k, data), all, size)
  {
    assert all[i] in all;
    hide Start;
  }

  /** What sg_copy_buffer does: r bytes go, as if the list were one flat string, from
      place skip of it to the start of the buffer, or the other way. */
  ghost predicate Transferred(toBuffer: bool, mem0: seq<Byte>, mem: seq<Byte>, buf0: seq<Byte>, buf: seq<Byte>,
                              all: seq<Entry>, size: nat, skip: nat, buflen: nat, r: nat)
    requires InMemory(mem0, all, size)
  {
    && r == |Slice(Flat(mem0, all, size), skip, buflen)| <= |buf0|
    && InMemory(mem, all, size)
    && (if toBuffer then mem == mem0 && buf == Patched(buf0, 0, Slice(Flat(mem0, all, size), skip, buflen))
        else
          && buf == buf0 && OthersKept(mem0, mem, all, size)
          && (Disjoint(all, size) ==>
                Flat(mem, all, size) == Patched(Flat(mem0, all, size), skip, buf0[..r])))
  }

  lemma NothingCopied(toBuffer: bool, mem: seq<Byte>, buf: seq<Byte>, all: seq<Entry>, size: nat, skip: nat, buflen: nat)
    requires InMemory(mem, all, size) && skip > Base(all, |all|)
    ensures Transferred(toBuffer, mem, mem, buf, buf, all, size, skip, buflen, 0)
  {
    FlatLength(mem, all, size);
    BaseTotal(all);
    hide Flat; hide Total; hide Base; hide Disjoint; hide Start;
  }

  lemma AllCopied(toBuffer: bool, mem0: seq<Byte>, mem: seq<Byte>, buf0: seq<Byte>, buf: seq<Byte>, all: seq<Entry>,
                  size: nat, skip: nat, offset: nat, buflen: nat)
    requires InMemory(mem0, all, size) && Copied(toBuffer, mem0, mem, buf0, buf, all, size, skip, offset)
    requires offset <= buflen <= |buf0| && (offset == buflen || skip + offset == Total(all))
    ensures Transferred(toBuffer, mem0, mem, buf0, buf, all, size, skip, buflen, offset)
  {
    var flat := Flat(mem0, all, size);
    hide Flat; hide Total; hide Disjoint; hide InMemory; hide OthersKept; hide Patched;
    if skip < |flat| {
      assert Slice(flat, skip, buflen) == flat[skip..skip + offset];
    } else {
      assert flat[skip..skip + offset] == [];
    }
  }

  lemma MappedIs(m: MappingIter)
    requires m.Mapped()
    ensures m.sg < |m.all| && Base(m.all, m.sg) <= m.At() && m.At() - Base(m.all, m.sg) + m.length <= m.all[m.sg].length
    ensures m.addr == Start(m.all[m.sg], m.size) + (m.At() - Base(m.all, m.sg))
    ensures m.Reached() == m.At() + m.consumed && m.advance == 1
  {
    hide Start; hide Base; hide Bytes;
  }

  /** The body of the loop: what is mapped is copied, as far as the buffer goes. */
  method CopyPage(miter: MappingIter, mem: array<Byte>, buf: array<Byte>, buflen: nat, ghost skip: nat, toBuffer: bool,
                  offset: nat, ghost mem0: seq<Byte>, ghost buf0: seq<Byte>)
    returns (offset': nat)
    requires mem != buf && offset < buflen <= buf.Length && InMemory(mem0, miter.all, miter.size)
    requires miter.Mapped() && miter.At() == skip + offset
    requires Copied(toBuffer, mem0, mem[..], buf0, buf[..], miter.all, miter.size, skip, offset)
    modifies mem, buf
    ensures Copied(toBuffer, mem0, mem[..], buf0, buf[..], miter.all, miter.size, skip, offset')
    ensures offset' <= buflen && offset' == offset + Min(miter.length, buflen - offset)
  {
    hide *;
    MappedIs(miter);
    var len := Min(miter.length, buflen - offset);
    MinIs(miter.length, buflen - offset);
    CopiedMore(toBuffer, mem0, mem[..], buf0, buf[..], miter.all, miter.size, skip, offset, miter.sg,
               miter.At() - Base(miter.all, miter.sg), len);
    SameLength(toBuffer, mem0, mem[..], buf0, buf[..], miter.all, miter.size, skip, offset);
    if toBuffer {
      CopyBytes(buf, offset, mem, miter.addr, len);
    } else {
      CopyBytes(mem, miter.addr, buf, offset, len);
    }
    offset' := offset + len;
  }

  lemma SameLength(toBuffer: bool, mem0: seq<Byte>, mem: seq<Byte>, buf0: seq<Byte>, buf: seq<Byte>, all: seq<Entry>,
                   size: nat, skip: nat, offset: nat)
    requires InMemory(mem0, all, size) && Copied(toBuffer, mem0, mem, buf0, buf, all, size, skip, offset)
    ensures (toBuffer ==> mem == mem0) && (!toBuffer ==> buf == buf0) && InMemory(mem, all, size)
  {}

  /** sg_copy_buffer, for any page size, entries of no bytes, and places within pages. */
  method CopyBuffer(list: seq<Entry>, count: nat, size: nat, mem: array<Byte>, buf: array<Byte>, buflen: nat, skip: nat,
                    toBuffer: bool)
    returns (r: nat)
    requires size > 0 && (forall e :: e in list ==> e.offset < size) && InMemory(mem[..], Limited(list, count), size)
    requires mem != buf && buflen <= buf.Length
    modifies mem, buf
    ensures Transferred(toBuffer, old(mem[..]), mem[..], old(buf[..]), buf[..], Limited(list, count), size, skip, buflen, r)
  {
    ghost var all := Limited(list, count);
    ghost var mem0, buf0 := mem[..], buf[..];
    BaseTotal(all);
    var offset: nat := 0;
    var miter := new MappingIter(list, count, size);
    assert miter.all == all;
    hide *;
    var ready := miter.Skip(skip);
    if !ready {
      NothingCopied(toBuffer, mem0, buf0, all, size, skip, buflen);
      return 0;
    }
    CopiedNone(toBuffer, mem0, buf0, all, size, skip);
    var more := miter.Next();
    while more && offset < buflen
      invariant fresh(miter) && miter.all == all && miter.size == size && offset <= buflen
      invariant Copied(toBuffer, mem0, mem[..], buf0, buf[..], all, size, skip, offset)
      invariant more ==> miter.Mapped() && miter.consumed == miter.length
      invariant more && offset < buflen ==> miter.At() == skip + offset
      invariant !more ==> miter.Valid() && (offset < buflen ==> skip + offset == Total(all))
      decreases more, buflen - offset, |all| - miter.sg, miter.length == 0
    {
      MappedIs(miter);
      MinIs(miter.length, buflen - offset);
      offset := CopyPage(miter, mem, buf, buflen, skip, toBuffer, offset, mem0, buf0);
      more := miter.Next();
    }
    miter.Stop();
    AllCopied(toBuffer, mem0, mem[..], buf0, buf[..], all, size, skip, offset, buflen);
    return offset;
  }

  lemma MinIs(a: nat, b: nat)
    ensures Min(a, b) <= a && Min(a, b) <= b && (Min(a, b) == a || Min(a, b) == b)
  {}

  /** The number of bytes transferred. */
  lemma TransferCount(toBuffer: bool, mem0: seq<Byte>, mem: seq<Byte>, buf0: seq<Byte>, buf: seq<Byte>, all: seq<Entry>,
                      size: nat, skip: nat, buflen: nat, r: nat)
    requires InMemory(mem0, all, size) && Transferred(toBuffer, mem0, mem, buf0, buf, all, size, skip, buflen, r)
    ensures r == Min(buflen, if skip <= Total(all) then Total(all) - skip else 0)
  {
    FlatLength(mem0, all, size);
    hide Flat; hide Total; hide Disjoint; hide InMemory; hide OthersKept; hide Patched; hide Slice;
    SliceLength(Flat(mem0, all, size), skip, buflen);
  }

  lemma SliceLength(flat: seq<Byte>, skip: nat, n: nat)
    ensures |Slice(flat, skip, n)| == Min(n, if skip <= |flat| then |flat| - skip else 0)
  {}

  /** A copy into the list and a copy out again at the same place return the bytes that
      went in. */
  lemma CopyInOut(mem0: seq<Byte>, mem1: seq<Byte>, data: seq<Byte>, buf0: seq<Byte>, buf1: seq<Byte>, all: seq<Entry>,
                  size: nat, skip: nat, buflen: nat, r: nat, q: nat)
    requires InMemory(mem0, all, size) && Disjoint(all, size) && buflen <= |data| && buflen <= |buf0|
    requires Transferred(false, mem0, mem1, data, data, all, size, skip, buflen, r)
    requires Transferred(true, mem1, mem1, buf0, buf1, all, size, skip, buflen, q)
    ensures q == r && buf1[..r] == data[..r]
  {
    TransferCount(false, mem0, mem1, data, data, all, size, skip, buflen, r);
    TransferCount(true, mem1, mem1, buf0, buf1, all, size, skip, buflen, q);
    FlatLength(mem0, all, size);
    var flat0, flat1 := Flat(mem0, all, size), Flat(mem1, all, size);
    hide Flat; hide Total; hide Disjoint; hide InMemory; hide OthersKept;
    if r > 0 {
      assert flat1[skip..skip + r] == data[..r];
    }
  }
}
