/** Symbols back into the column: the run and move-to-front part of BZ2_decompress. */
module MtfDecoder {

  import opened Rotations
  import opened BurrowsWheeler
  import opened MoveToFront
  import opened MtfEncoder
  import opened SlidingMtf
  import opened InverseTransform
  import opened BlockRoundTrip

  /** The first n numbers of the list, which are all that symbols can reach, stay among themselves. */
  ghost predicate Closed(list: seq<nat>, n: nat) {
    n <= |list| && forall k :: 0 <= k < n ==> list[k] < n
  }

  lemma ClosedMoved(list: seq<nat>, n: nat, j: nat)
    requires Closed(list, n) && j < n
    ensures Closed(FrontMoved(list, j), n)
  {
  }

  /** store holds the bytes of the column, and unzftab counts them. */
  ghost predicate Stored(store: seq<nat>, unzftab: seq<nat>, out: seq<nat>, used: seq<Byte>) {
    && |out| <= |store| && (forall i :: 0 <= i < |out| ==> out[i] < |used| && store[i] == used[out[i]])
    && |unzftab| == ALPHABET && Counts(unzftab, Unmapped(out, used))
  }

  lemma UnmappedPush(out: seq<nat>, used: seq<Byte>, v: nat)
    requires v < |used| && forall i :: 0 <= i < |out| ==> out[i] < |used|
    ensures Unmapped(out + [v], used) == Unmapped(out, used) + [used[v]]
  {
  }

  lemma {:induction false} OccurrencesPrefix(c: seq<Byte>, d: seq<Byte>, v: int, m: nat)
    requires m <= |c| <= |d| && d[..|c|] == c
    ensures Occurrences(d, v, m) == Occurrences(c, v, m)
  {
    if m > 0 {
      OccurrencesPrefix(c, d, v, m - 1);
    }
  }

  lemma CountsPush(c: seq<Byte>, x: Byte, v: int)
    ensures Occurrences(c + [x], v, |c| + 1) == Occurrences(c, v, |c|) + if v == x then 1 else 0
  {
    OccurrencesPrefix(c, c + [x], v, |c|);
  }

  /** One more byte of the column. */
  lemma StoredPush(store: seq<nat>, unzftab: seq<nat>, out: seq<nat>, used: seq<Byte>, v: nat, store': seq<nat>,
                   unzftab': seq<nat>)
    requires Stored(store, unzftab, out, used) && v < |used| && |out| < |store|
    requires store' == store[|out| := used[v]] && unzftab' == unzftab[used[v] := unzftab[used[v]] + 1]
    ensures Stored(store', unzftab', out + [v], used)
  {
    hide Occurrences;
    UnmappedPush(out, used, v);
    var c := Unmapped(out, used);
    forall x | 0 <= x < ALPHABET
      ensures unzftab'[x] == Occurrences(c + [used[v]], x, |c| + 1)
    {
      CountsPush(c, used[v], x);
    }
  }

  /** The counts of a run are added at once, before its bytes are stored. */
  ghost predicate Storing(store: seq<nat>, unzftab: seq<nat>, out: seq<nat>, used: seq<Byte>, v: nat, es: nat) {
    && v < |used| && |unzftab| == ALPHABET && unzftab[used[v]] >= es
    && Stored(store, unzftab[used[v] := unzftab[used[v]] - es], out, used)
  }

  lemma StoringPush(store: seq<nat>, unzftab: seq<nat>, out: seq<nat>, used: seq<Byte>, v: nat, es: nat)
    requires Storing(store, unzftab, out, used, v, es) && es > 0 && |out| < |store|
    ensures Storing(store[|out| := used[v]], unzftab, out + [v], used, v, es - 1)
  {
    hide Occurrences, Stored;
    var u := used[v];
    var less := unzftab[u := unzftab[u] - es];
    StoredPush(store, less, out, used, v, store[|out| := u], less[u := less[u] + 1]);
    assert less[u := less[u] + 1] == unzftab[u := unzftab[u] - (es - 1)];
  }

  datatype Outcome = More | EndOfBlock | Bad

  class ColumnDecoder {
    const list: SlidingList
    const store: array<nat>
    const unzftab: array<nat>
    const seqToUnseq: seq<Byte>
    const nblockMAX: nat
    var nblock: nat
    var es: int
    var N: nat
    ghost var out: seq<nat>

    ghost predicate Valid()
      reads this, list, list.mtfa, list.mtfbase, store, unzftab
    {
      && list.Valid() && list.mtfa != store && list.mtfa != unzftab && store != unzftab
      && 0 < |seqToUnseq| <= 256 && |list.list| == 256 && Closed(list.list, |seqToUnseq|)
      && store.Length == nblockMAX && nblock == |out| && es >= -1
      && Stored(store[..], unzftab[..], out, seqToUnseq)
    }

    /** The state of the abstract decoder. */
    ghost function Abs(): Decoder
      requires es >= -1
      reads this, list
    {
      Reading(list.list, out, es + 1, N)
    }

    constructor (seqToUnseq: seq<Byte>, nblockMAX: nat)
      requires 0 < |seqToUnseq| <= 256
      ensures Valid() && Abs() == Start(Identity(256)) && this.seqToUnseq == seqToUnseq && this.nblockMAX == nblockMAX
      ensures fresh(list) && fresh(list.mtfa) && fresh(list.mtfbase) && fresh(store) && fresh(unzftab)
    {
      this.seqToUnseq, this.nblockMAX := seqToUnseq, nblockMAX;
      var l := new SlidingList();
      list := l;
      var tt := new nat[nblockMAX];
      var counts := new nat[256](_ => 0);
      store, unzftab := tt, counts;
      nblock, es, N, out := 0, -1, 1, [];
      new;
      assert l.list == Identity(256);
      assert Unmapped([], seqToUnseq) == [];
    }

    /** The pending run is written out; false when the block gets too long. */
    method WriteRun() returns (ok: bool)
      requires Valid()
      modifies this, store, unzftab
      ensures ok == (old(|out| + es + 1) <= nblockMAX)
      ensures ok ==> Valid() && Abs() == Reading(list.list, old(out + Repeat(list.list[0], es + 1)), 0, 1)
    {
      hide SlidingList.Valid, Stored;
      var v := list.First();
      var uc := seqToUnseq[v];
      es := es + 1;
      ghost var u0 := unzftab[..];
      StoredSize(store[..], u0, out, seqToUnseq);
      unzftab[uc] := unzftab[uc] + es;
      assert unzftab[..][uc := unzftab[uc] - es] == u0;
      ghost var start, total := out, es;
      assert start + Repeat(v, 0) == start;
      while es > 0
        invariant 0 <= es <= total && out == start + Repeat(v, total - es) && nblock == |out|
        invariant list.Valid() && list.list == old(list.list)
        invariant Storing(store[..], unzftab[..], out, seqToUnseq, v, es)
      {
        if nblock >= nblockMAX {
          return false;
        }
        StoringPush(store[..], unzftab[..], out, seqToUnseq, v, es);
        ghost var s0 := store[..];
        store[nblock] := uc;
        assert store[..] == s0[nblock := uc];
        nblock := nblock + 1;
        assert Repeat(v, total - es + 1) == Repeat(v, total - es) + [v];
        out := out + [v];
        es := es - 1;
      }
      StoringDone(store[..], unzftab[..], out, seqToUnseq, v);
      StoredSize(store[..], unzftab[..], out, seqToUnseq);
      es, N := -1, 1;
      ok := true;
    }

    /** One symbol: refines MoveToFront.Step. */
    method Take(sym: nat) returns (r: Outcome)
      requires Valid() && sym <= |seqToUnseq| + 1
      modifies this, list, list.mtfa, list.mtfbase, store, unzftab
      ensures var d := Step(old(Abs()), sym, |seqToUnseq| + 1, nblockMAX);
              match r
              case Bad => d == Corrupt
              case EndOfBlock => Valid() && d == Finished(out)
              case More => Valid() && d == Abs()
    {
      hide SlidingList.Valid, Stored, Closed, FrontMoved;
      ghost var d0 := Abs();
      if sym == RUNA || sym == RUNB {
        if N >= 2 * 1024 * 1024 {
          return Bad;
        }
        es := es + (if sym == RUNA then 1 else 2) * N;
        N := N * 2;
        return More;
      }
      var ok := WriteRun();
      if !ok {
        return Bad;
      }
      if sym == |seqToUnseq| + 1 {
        return EndOfBlock;
      }
      if nblock >= nblockMAX {
        return Bad;
      }
      r := More;
      ghost var was := list.list;
      ClosedAt(was, |seqToUnseq|, sym - 1);
      ClosedMoved(was, |seqToUnseq|, sym - 1);
      var uc := list.Access(sym - 1);
      Push(uc);
    }

    /** One byte of the column. */
    method Push(uc: nat)
      requires Valid() && uc < |seqToUnseq| && nblock < nblockMAX
      modifies this`nblock, this`out, store, unzftab
      ensures Valid() && out == old(out) + [uc]
    {
      hide SlidingList.Valid, Stored, Closed;
      ghost var s0, u0 := store[..], unzftab[..];
      var c := seqToUnseq[uc];
      StoredSize(s0, u0, out, seqToUnseq);
      unzftab[c] := unzftab[c] + 1;
      store[nblock] := c;
      assert store[..] == s0[nblock := c] && unzftab[..] == u0[c := u0[c] + 1];
      StoredPush(s0, u0, out, seqToUnseq, uc, store[..], unzftab[..]);
      nblock := nblock + 1;
      out := out + [uc];
    }
  }

  lemma StoredSize(store: seq<nat>, unzftab: seq<nat>, out: seq<nat>, used: seq<Byte>)
    requires Stored(store, unzftab, out, used)
    ensures |unzftab| == 256 && |out| <= |store|
  {
  }

  lemma ClosedAt(list: seq<nat>, n: nat, k: nat)
    requires Closed(list, n) && k < n
    ensures list[k] < n
  {
  }

  lemma StoringDone(store: seq<nat>, unzftab: seq<nat>, out: seq<nat>, used: seq<Byte>, v: nat)
    requires Storing(store, unzftab, out, used, v, 0)
    ensures Stored(store, unzftab, out, used)
  {
    hide Stored;
    assert unzftab[used[v] := unzftab[used[v]] - 0] == unzftab;
  }
}
