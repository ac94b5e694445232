/** The output side of decompression: unRLE_obuf_to_output_FAST and _SMALL, resumable at every byte. */
module RunDecoder {

  import opened Rotations
  import opened BurrowsWheeler
  import opened InverseTransform
  import opened Checksum
  import opened MoveToFront
  import opened RunLength
  import opened CompressStream

  // ----- Where the bytes come from -----

  /** The row after m steps from row k. */
  ghost function RowAfter(link: seq<nat>, k: nat, m: nat): (r: nat)
    requires k < |link| && forall i :: 0 <= i < |link| ==> link[i] < |link|
    ensures r < |link|
    decreases m
  {
    if m == 0 then k else link[RowAfter(link, k, m - 1)]
  }

  lemma {:induction false} RowAfterFront(link: seq<nat>, k: nat, m: nat)
    requires k < |link| && forall i :: 0 <= i < |link| ==> link[i] < |link|
    ensures RowAfter(link, k, m + 1) == RowAfter(link, link[k], m)
    decreases m
  {
    if m > 0 {
      RowAfterFront(link, k, m - 1);
    }
  }

  lemma {:induction false} WalkAt(c: seq<Byte>, link: seq<nat>, k: nat, m: nat, i: nat)
    requires |link| == |c| && k < |c| && (forall i :: 0 <= i < |link| ==> link[i] < |link|) && i < m
    ensures Walk(c, link, k, m)[i] == c[link[RowAfter(link, k, i)]]
    decreases m
  {
    if i > 0 {
      WalkAt(c, link, link[k], m - 1, i - 1);
      RowAfterFront(link, k, i - 1);
    }
  }

  /** The block behind BZ_GET_FAST or BZ_GET_SMALL, whichever the caller asked for. */
  class ByteSource {
    const small: bool
    const fast: FastCursor?
    const tiny: SmallCursor?
    ghost const c: seq<Byte>
    ghost const link: seq<nat>
    ghost const origPtr: nat
    ghost var pos: nat

    ghost predicate Valid()
      reads this, fast, if fast != null then {fast.tt} else {}, tiny,
        if tiny != null then {tiny.ll, tiny.ll.ll16, tiny.ll.ll4, tiny.cftab} else {}
    {
      && |link| == |c| && origPtr < |c| && (forall i :: 0 <= i < |link| ==> link[i] < |link|)
      && (if small then
            && tiny != null && tiny.Valid() && tiny.c == c && tiny.link == link
               && tiny.tPos == RowAfter(link, origPtr, pos)
          else
            && fast != null && fast.Valid() && fast.c == c && fast.link == link
               && fast.row == RowAfter(link, origPtr, pos))
    }

    /** The block that the bytes spell. */
    ghost function Spelt(): (s: seq<Byte>)
      reads this
      requires |link| == |c| && origPtr < |c| && (forall i :: 0 <= i < |link| ==> link[i] < |link|)
      ensures |s| == |c|
    {
      Walk(c, link, origPtr, |c|)
    }

    constructor Fast(cursor: FastCursor, ghost origPtr: nat)
      requires cursor.Valid() && cursor.row == origPtr
      ensures Valid() && fast == cursor && tiny == null && pos == 0 && c == cursor.c && link == cursor.link
        && this.origPtr == origPtr
    {
      hide InverseTransform.Packed, Rank;
      small, fast, tiny, pos := false, cursor, null, 0;
      this.origPtr, c, link := origPtr, cursor.c, cursor.link;
    }

    constructor Small(cursor: SmallCursor, ghost origPtr: nat)
      requires cursor.Valid() && cursor.tPos == origPtr
      ensures Valid() && fast == null && tiny == cursor && pos == 0 && c == cursor.c && link == cursor.link
        && this.origPtr == origPtr
    {
      hide FirstRows, ReversedOn, Rank, PackedVector.Valid, PackedVector.View;
      small, fast, tiny, pos := true, null, cursor, 0;
      this.origPtr, c, link := origPtr, cursor.c, cursor.link;
    }

    /** The next byte; past the end of the block it wraps around. */
    method Get() returns (ch: Byte)
      requires Valid()
      modifies this, fast, tiny
      ensures Valid() && pos == old(pos) + 1
      ensures old(pos) < |c| ==> ch == Spelt()[old(pos)]
    {
      hide FastCursor.Valid, SmallCursor.Valid, Walk;
      if pos < |c| {
        WalkAt(c, link, origPtr, |c|, pos);
      }
      var corrupt;
      if small {
        corrupt, ch := tiny.Get();
      } else {
        corrupt, ch := fast.Get();
      }
      pos := pos + 1;
    }
  }

  // ----- Runs -----

  lemma EqualRun(s: seq<Byte>, i: nat, k: nat)
    requires 0 < k < 4 && i + k <= |s| && (forall j :: i <= j < i + k ==> s[j] == s[i])
      && (i + k == |s| || s[i + k] != s[i])
    ensures Unpacked(s[i..]) == Repeat(s[i], k) + Unpacked(s[i + k..])
    ensures Whole(s[i..]) <==> Whole(s[i + k..])
  {
    hide Unpack, Trailing;
    var rest := s[i + k..];
    assert s[i..] == Repeat(s[i], k) + rest;
    UnpackEqual(s[i], k, rest);
    UnpackOther(rest, s[i], k);
    NothingLeft();
  }

  lemma NothingLeft()
    ensures Trailing([], 0, 0) == 0 && Unpacked([]) == []
  {
  }

  lemma CountedRun(s: seq<Byte>, i: nat)
    requires i + 4 < |s| && s[i + 1] == s[i] && s[i + 2] == s[i] && s[i + 3] == s[i]
    ensures Unpacked(s[i..]) == Repeat(s[i], 4 + s[i + 4] as nat) + Unpacked(s[i + 5..])
    ensures Whole(s[i..]) <==> Whole(s[i + 5..])
  {
    hide Unpack, Trailing;
    var rest := s[i + 5..];
    assert s[i..] == Repeat(s[i], 4) + [s[i + 4]] + rest;
    UnpackCounted(s[i], s[i + 4], rest);
  }

  /** Four equal bytes at the very end: their count is missing. */
  lemma UncountedRun(s: seq<Byte>, i: nat)
    requires i + 4 == |s| && s[i + 1] == s[i] && s[i + 2] == s[i] && s[i + 3] == s[i]
    ensures !Whole(s[i..])
  {
    hide Unpack;
    assert s[i..] == Repeat(s[i], 4) + [];
    UnpackEqual(s[i], 4, []);
  }

  /** What has been emitted, what is pending and what is still packed make up the plain text. */
  ghost predicate Emitting(s: seq<Byte>, emitted: seq<Byte>, ch: Byte, len: nat, used: nat) {
    && 1 <= used <= |s| + 2
    && (used <= |s| + 1 ==>
          emitted + Repeat(ch, len) + Unpacked(s[used - 1..]) == Unpacked(s) && (Whole(s) <==> Whole(s[used - 1..])))
    && (used == |s| + 2 ==> !Whole(s))
  }

  lemma EmitOne(s: seq<Byte>, emitted: seq<Byte>, ch: Byte, len: nat, used: nat)
    requires Emitting(s, emitted, ch, len, used) && len > 0
    ensures Emitting(s, emitted + [ch], ch, len - 1, used)
  {
    hide Unpacked, Whole;
    assert Repeat(ch, len) == [ch] + Repeat(ch, len - 1);
    assert emitted + Repeat(ch, len) == emitted + [ch] + Repeat(ch, len - 1);
  }

  lemma EmitRun(s: seq<Byte>, emitted: seq<Byte>, ch: Byte, used: nat, ch': Byte, len: nat, used': nat)
    requires Emitting(s, emitted, ch, 0, used) && used <= |s| && used < used' <= |s| + 1
    requires Unpacked(s[used - 1..]) == Repeat(ch', len) + Unpacked(s[used' - 1..])
    requires Whole(s[used - 1..]) <==> Whole(s[used' - 1..])
    ensures Emitting(s, emitted, ch', len, used')
  {
    hide Unpacked, Whole;
    assert emitted + Repeat(ch, 0) == emitted;
    assert emitted + (Repeat(ch', len) + Unpacked(s[used' - 1..])) == emitted + Repeat(ch', len)
      + Unpacked(s[used' - 1..]);
  }

  lemma EmitAll(s: seq<Byte>, emitted: seq<Byte>, ch: Byte)
    requires Emitting(s, emitted, ch, 0, |s| + 1)
    ensures emitted == Unpacked(s) && Whole(s)
  {
    hide Unpack;
    assert s[|s|..] == [];
    NothingLeft();
    assert emitted + Repeat(ch, 0) + [] == emitted;
  }

  lemma EmitStart(s: seq<Byte>, ch: Byte)
    ensures Emitting(s, [], ch, 0, 1)
  {
    assert s[0..] == s;
  }

  class Unpacker {
    const table: Table
    const strm: Stream
    const src: ByteSource
    ghost const s: seq<Byte>
    const saveNblock: nat
    var stateOutLen: nat
    var stateOutCh: Byte
    var nblockUsed: nat
    var k0: Byte
    var calculatedBlockCRC: bv32
    ghost var emitted: seq<Byte>

    ghost predicate Shape()
      reads this, src, src.fast, if src.fast != null then {src.fast.tt} else {}, src.tiny,
        if src.tiny != null then {src.tiny.ll, src.tiny.ll.ll16, src.tiny.ll.ll4, src.tiny.cftab} else {}
    {
      && src.Valid() && src.Spelt() == s && saveNblock == |s| > 0 && src.pos == nblockUsed >= 1
    }

    ghost predicate Valid()
      reads this, src, src.fast, if src.fast != null then {src.fast.tt} else {}, src.tiny,
        if src.tiny != null then {src.tiny.ll, src.tiny.ll.ll16, src.tiny.ll.ll4, src.tiny.cftab} else {}
    {
      && Shape() && Emitting(s, emitted, stateOutCh, stateOutLen, nblockUsed)
      && (nblockUsed <= |s| ==> k0 == s[nblockUsed - 1])
      && calculatedBlockCRC == CrcOf(table, emitted)
    }

    /** The block is ready: the first byte is fetched. */
    constructor (table: Table, strm: Stream, src: ByteSource, nblock: nat)
      requires src.Valid() && src.pos == 0 && 0 < nblock == |src.c|
      modifies src, src.fast, src.tiny
      ensures Valid() && s == src.Spelt() && this.strm == strm && this.src == src && this.table == table
      ensures emitted == []
    {
      hide FastCursor.Valid, SmallCursor.Valid, Emitting, Walk;
      this.table, this.strm, this.src := table, strm, src;
      s, saveNblock := src.Spelt(), nblock;
      stateOutLen, stateOutCh, emitted, calculatedBlockCRC := 0, 0, [], 0xffffffff;
      EmitStart(src.Spelt(), 0);
      nblockUsed := 1;
      var b := src.Get();
      k0 := b;
    }
    /** One byte of the pending run goes out. */
    method Emit()
      requires Valid() && stateOutLen > 0 && strm.availOut > 0
      modifies this`stateOutLen, this`calculatedBlockCRC, this`emitted, strm`out, strm`availOut
      ensures Valid() && emitted == old(emitted) + [stateOutCh] && stateOutLen == old(stateOutLen) - 1
      ensures strm.out == old(strm.out) + [stateOutCh] && strm.availOut == old(strm.availOut) - 1
    {
      hide ByteSource.Valid, Emitting, Walk, CrcOf, Update;
      EmitOne(s, emitted, stateOutCh, stateOutLen, nblockUsed);
      CrcPush(table, emitted, stateOutCh);
      strm.out := strm.out + [stateOutCh];
      calculatedBlockCRC := Update(table, calculatedBlockCRC, stateOutCh);
      emitted := emitted + [stateOutCh];
      stateOutLen := stateOutLen - 1;
      strm.availOut := strm.availOut - 1;
    }

    /** One more byte of the block. */
    method Fetch() returns (k1: Byte)
      requires Shape()
      modifies this`nblockUsed, src, src.fast, src.tiny
      ensures Shape() && nblockUsed == old(nblockUsed) + 1
      ensures old(nblockUsed) < |s| ==> k1 == s[old(nblockUsed)]
    {
      hide ByteSource.Valid, Walk;
      k1 := src.Get();
      nblockUsed := nblockUsed + 1;
    }

    /** What starting a run must achieve. */
    twostate predicate RunStarted()
      reads this, src, src.fast, if src.fast != null then {src.fast.tt} else {}, src.tiny,
        if src.tiny != null then {src.tiny.ll, src.tiny.ll.ll16, src.tiny.ll.ll4, src.tiny.cftab} else {}
    {
      Valid() && stateOutLen > 0 && old(nblockUsed) < nblockUsed <= |s| + 2
    }

    /** A new run, as unRLE_obuf_to_output_FAST starts it. */
    method StartRunFast()
      requires Valid() && stateOutLen == 0 && nblockUsed <= |s|
      modifies this`stateOutLen, this`stateOutCh, this`nblockUsed, this`k0, src, src.fast, src.tiny
      ensures RunStarted()
    {
      hide ByteSource.Valid, Emitting, Walk, CrcOf, Unpacked, Whole, Repeat;
      ghost var i, ch0 := nblockUsed - 1, stateOutCh;
      stateOutCh := k0;
      var k1 := Fetch();
      if k1 != k0 {
        k0, stateOutLen := k1, 1;
        EqualRun(s, i, 1);
        EmitRun(s, emitted, ch0, i + 1, stateOutCh, 1, nblockUsed);
        return;
      }
      if nblockUsed == saveNblock + 1 {
        stateOutLen := 1;
        EqualRun(s, i, 1);
        EmitRun(s, emitted, ch0, i + 1, stateOutCh, 1, nblockUsed);
        return;
      }
      SecondByte(ch0, i);
    }

    /** A new run, as unRLE_obuf_to_output_SMALL starts it: the end of the block is looked for first. */
    method StartRunSmall()
      requires Valid() && stateOutLen == 0 && nblockUsed <= |s|
      modifies this`stateOutLen, this`stateOutCh, this`nblockUsed, this`k0, src, src.fast, src.tiny
      ensures RunStarted()
    {
      hide ByteSource.Valid, Emitting, Walk, CrcOf, Unpacked, Whole, Repeat;
      ghost var i, ch0 := nblockUsed - 1, stateOutCh;
      stateOutLen := 1;
      stateOutCh := k0;
      var k1 := Fetch();
      if nblockUsed == saveNblock + 1 {
        EqualRun(s, i, 1);
        EmitRun(s, emitted, ch0, i + 1, stateOutCh, 1, nblockUsed);
        return;
      }
      if k1 != k0 {
        k0 := k1;
        EqualRun(s, i, 1);
        EmitRun(s, emitted, ch0, i + 1, stateOutCh, 1, nblockUsed);
        return;
      }
      SecondByte(ch0, i);
    }

    /** Two equal bytes are seen: a third, or not. */
    method SecondByte(ghost ch0: Byte, ghost i: nat)
      requires Shape() && Emitting(s, emitted, ch0, 0, i + 1) && calculatedBlockCRC == CrcOf(table, emitted)
      requires nblockUsed == i + 2 <= |s| && k0 == stateOutCh == s[i] && s[i + 1] == s[i]
      modifies this`stateOutLen, this`nblockUsed, this`k0, src, src.fast, src.tiny
      ensures Valid() && stateOutLen > 0 && i + 1 < nblockUsed <= |s| + 2
    {
      hide ByteSource.Valid, Emitting, Walk, CrcOf, Unpacked, Whole, Repeat;
      stateOutLen := 2;
      var k1 := Fetch();
      if nblockUsed == saveNblock + 1 {
        EqualRun(s, i, 2);
        EmitRun(s, emitted, ch0, i + 1, stateOutCh, 2, nblockUsed);
        return;
      }
      if k1 != k0 {
        k0 := k1;
        EqualRun(s, i, 2);
        EmitRun(s, emitted, ch0, i + 1, stateOutCh, 2, nblockUsed);
        return;
      }
      ThirdByte(ch0, i);
    }

    /** Four equal bytes are seen: a count, if there is one, and the byte behind it. */
    method CountByte(ghost ch0: Byte, ghost i: nat)
      requires Shape() && Emitting(s, emitted, ch0, 0, i + 1) && calculatedBlockCRC == CrcOf(table, emitted)
      requires nblockUsed == i + 4 <= |s| && stateOutCh == s[i] && s[i + 1] == s[i + 2] == s[i + 3] == s[i]
      modifies this`stateOutLen, this`nblockUsed, this`k0, src, src.fast, src.tiny
      ensures Valid() && stateOutLen > 0 && i + 1 < nblockUsed <= |s| + 2
    {
      hide ByteSource.Valid, Emitting, Walk, CrcOf, Unpacked, Whole, Repeat;
      var k1 := Fetch();
      stateOutLen := 4 + k1 as nat;
      k0 := Fetch();
      if i + 4 < |s| {
        CountedRun(s, i);
        EmitRun(s, emitted, ch0, i + 1, stateOutCh, stateOutLen, nblockUsed);
      } else {
        UncountedRun(s, i);
        EmitNothing(s, emitted, ch0, i + 1, stateOutCh, stateOutLen, nblockUsed);
      }
    }

    /** Three equal bytes are seen: a fourth, with a count behind it, or not. */
    method ThirdByte(ghost ch0: Byte, ghost i: nat)
      requires Shape() && Emitting(s, emitted, ch0, 0, i + 1) && calculatedBlockCRC == CrcOf(table, emitted)
      requires nblockUsed == i + 3 <= |s| && k0 == stateOutCh == s[i] && s[i + 1] == s[i] && s[i + 2] == s[i]
      modifies this`stateOutLen, this`nblockUsed, this`k0, src, src.fast, src.tiny
      ensures Valid() && stateOutLen > 0 && i + 1 < nblockUsed <= |s| + 2
    {
      hide ByteSource.Valid, Emitting, Walk, CrcOf, Unpacked, Whole, Repeat;
      stateOutLen := 3;
      var k1 := Fetch();
      if nblockUsed == saveNblock + 1 {
        EqualRun(s, i, 3);
        EmitRun(s, emitted, ch0, i + 1, stateOutCh, 3, nblockUsed);
        return;
      }
      if k1 != k0 {
        k0 := k1;
        EqualRun(s, i, 3);
        EmitRun(s, emitted, ch0, i + 1, stateOutCh, 3, nblockUsed);
        return;
      }
      CountByte(ch0, i);
    }

    /** Everything the two output routines may change. */
    ghost function Footprint(): set<object>
      reads this, src
    {
      {this, strm, src} + (if src.fast != null then {src.fast} else {}) + (if src.tiny != null then {src.tiny} else {})
    }

    /** Output goes only to the stream, and only in order. */
    twostate predicate Poured()
      reads this, strm
    {
      && old(emitted) <= emitted && strm.out == old(strm.out) + emitted[|old(emitted)|..]
      && strm.availOut + |strm.out| == old(strm.availOut + |strm.out|)
    }

    /** The pending run goes out as far as there is room. */
    method FinishRun()
      requires Valid()
      modifies this`stateOutLen, this`calculatedBlockCRC, this`emitted, strm`out, strm`availOut
      ensures Valid() && Poured() && (stateOutLen == 0 || strm.availOut == 0)
    {
      hide Valid;
      while stateOutLen > 0 && strm.availOut > 0
        invariant Valid() && Poured()
      {
        Emit();
      }
    }

    /**
      unRLE_obuf_to_output_FAST.  It stops when there is no room or the block is used up,
      and reports corruption exactly when the last count of the block is missing.
     */
    method UnRleFast() returns (corrupt: bool)
      requires Valid()
      modifies Footprint()
      ensures Valid() && Poured()
      ensures corrupt ==> !Whole(s)
      ensures !corrupt ==> (nblockUsed == saveNblock + 1 && stateOutLen == 0) || strm.availOut == 0
    {
      hide ByteSource.Valid, Emitting, Walk, CrcOf, Whole;
      while true
        invariant Valid() && Poured()
        decreases |s| + 2 - nblockUsed
      {
        if stateOutLen > 0 {
          FinishRun();
          if stateOutLen > 0 {
            return false;
          }
        }
        if nblockUsed > saveNblock + 1 {
          EmittingCorrupt(s, emitted, stateOutCh, stateOutLen, nblockUsed);
          return true;
        }
        if nblockUsed == saveNblock + 1 {
          return false;
        }
        StartRunFast();
      }
    }

    /** unRLE_obuf_to_output_SMALL */
    method UnRleSmall() returns (corrupt: bool)
      requires Valid()
      modifies Footprint()
      ensures Valid() && Poured()
      ensures corrupt ==> !Whole(s)
      ensures !corrupt ==> (nblockUsed == saveNblock + 1 && stateOutLen == 0) || strm.availOut == 0
    {
      hide ByteSource.Valid, Emitting, Walk, CrcOf, Whole;
      while true
        invariant Valid() && Poured()
        decreases |s| + 2 - nblockUsed
      {
        FinishRun();
        if strm.availOut == 0 {
          return false;
        }
        if nblockUsed == saveNblock + 1 {
          return false;
        }
        if nblockUsed > saveNblock + 1 {
          EmittingCorrupt(s, emitted, stateOutCh, stateOutLen, nblockUsed);
          return true;
        }
        StartRunSmall();
      }
    }

    /** When the block is used up, its whole plain text has been emitted and nothing else. */
    lemma AllOut()
      requires Valid() && nblockUsed == saveNblock + 1 && stateOutLen == 0
      ensures emitted == Unpacked(s) && Whole(s)
    {
      EmitAll(s, emitted, stateOutCh);
    }

    /** At any time, what has been emitted of a whole block is the beginning of its plain text. */
    lemma SomeOut()
      requires Valid() && Whole(s)
      ensures emitted <= Unpacked(s)
    {
      hide ByteSource.Valid, Walk, CrcOf, Unpacked, Whole;
      var rest := Repeat(stateOutCh, stateOutLen) + Unpacked(s[nblockUsed - 1..]);
      assert emitted + Repeat(stateOutCh, stateOutLen) + Unpacked(s[nblockUsed - 1..]) == emitted + rest;
    }
  }

  lemma EmittingCorrupt(s: seq<Byte>, emitted: seq<Byte>, ch: Byte, len: nat, used: nat)
    requires Emitting(s, emitted, ch, len, used) && used > |s| + 1
    ensures !Whole(s)
  {
  }

  lemma EmitNothing(s: seq<Byte>, emitted: seq<Byte>, ch: Byte, used: nat, ch': Byte, len: nat, used': nat)
    requires Emitting(s, emitted, ch, 0, used) && used <= |s| && used' == |s| + 2 && !Whole(s[used - 1..])
    ensures Emitting(s, emitted, ch', len, used')
  {
    hide Unpacked, Whole;
  }
}
