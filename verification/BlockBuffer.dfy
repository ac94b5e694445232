/** Collecting a block: ADD_CHAR_TO_BLOCK, add_pair_to_block and flush_RL. */
module BlockBuffer {

  import opened Rotations
  import opened Checksum
  import opened MoveToFront
  import opened RunLength

  /** A block holds exactly the given runs, with its bytes marked and its checksum up to date. */
  ghost predicate Collects(block: seq<Byte>, runs: seq<ByteRun>, used: seq<bool>, crc: bv32, table: Table) {
    && Cut(runs) && block == PackedAll(runs) && |used| == 256 && Marked(block, used) && crc == CrcOf(table, Plain(runs))
  }

  ghost predicate Marked(block: seq<Byte>, used: seq<bool>)
    requires |used| == 256
  {
    forall i :: 0 <= i < |block| ==> used[block[i]]
  }

  /** The pending run: state_in_ch is 256 when there is none. */
  predicate PendingOk(ch: nat, len: nat) {
    (ch == 256 && len == 0) || (ch < 256 && 1 <= len <= LONGEST_RUN)
  }

  function Pending(ch: nat, len: nat): (s: seq<Byte>)
    requires PendingOk(ch, len)
  {
    if ch == 256 then []
    else
      var c: Byte := ch;
      Repeat(c, len)
  }

  /** The pending run may follow the last run of the block. */
  ghost predicate Follows(runs: seq<ByteRun>, ch: nat) {
    ch < 256 && runs != [] ==> Splits(runs[|runs| - 1], ch)
  }

  lemma CollectsStart(used: seq<bool>, table: Table)
    requires |used| == 256
    ensures Collects([], [], used, 0xffffffff, table)
  {
  }

  /** A run enters the block. */
  lemma CollectsMore(block: seq<Byte>, runs: seq<ByteRun>, used: seq<bool>, crc: bv32, table: Table, r: ByteRun,
                     used': seq<bool>, crc': bv32)
    requires Collects(block, runs, used, crc, table) && RunLegal(r) && Follows(runs, r.ch)
    requires |used'| == 256 && Marked(Packed(r), used') && forall v :: 0 <= v < 256 && used[v] ==> used'[v]
    requires crc' == CrcOf(table, Plain(runs) + Repeat(r.ch, r.len))
    ensures Collects(block + Packed(r), runs + [r], used', crc', table)
    ensures Plain(runs + [r]) == Plain(runs) + Repeat(r.ch, r.len)
  {
    hide Packed, CrcOf;
    assert (runs + [r])[..|runs|] == runs;
  }

  lemma CrcRepeat(table: Table, s: seq<Byte>, ch: Byte, n: nat)
    ensures CrcOf(table, s + Repeat(ch, n + 1)) == Update(table, CrcOf(table, s + Repeat(ch, n)), ch)
    ensures s + Repeat(ch, 0) == s
  {
    hide CrcOf;
    CrcPush(table, s + Repeat(ch, n), ch);
    assert s + Repeat(ch, n + 1) == s + Repeat(ch, n) + [ch];
  }

  /** The part of EState that collects a block. */
  class Buffer {
    const table: Table
    const inUse: array<bool>
    var stateInCh: nat
    var stateInLen: nat
    var block: seq<Byte>
    var blockCRC: bv32
    ghost var runs: seq<ByteRun>

    /** A run in the block is always followed by a pending run, so that runs are cut right. */
    ghost predicate Valid()
      reads this, inUse
    {
      && inUse.Length == 256 && PendingOk(stateInCh, stateInLen) && Follows(runs, stateInCh)
         && (stateInCh == 256 ==> runs == [])
      && Collects(block, runs, inUse[..], blockCRC, table)
    }

    /** The input collected since the block was begun. */
    ghost function Taken(): (s: seq<Byte>)
      requires PendingOk(stateInCh, stateInLen)
      reads this
    {
      Plain(runs) + Pending(stateInCh, stateInLen)
    }

    constructor (table: Table)
      ensures Valid() && fresh(inUse) && this.table == table && block == [] && runs == [] && stateInCh == 256
        && stateInLen == 0
    {
      this.table := table;
      inUse := new bool[256](_ => false);
      stateInCh, stateInLen := 256, 0;
      block, blockCRC, runs := [], 0xffffffff, [];
      new;
      CollectsStart(inUse[..], table);
    }

    /** The block part of prepare_new_block: the pending run stays. */
    method Renew()
      requires inUse.Length == 256 && PendingOk(stateInCh, stateInLen)
      modifies this, inUse
      ensures Valid() && block == [] && runs == [] && stateInCh == old(stateInCh) && stateInLen == old(stateInLen)
      ensures Taken() == Pending(stateInCh, stateInLen)
    {
      hide Collects;
      block, runs, blockCRC := [], [], 0xffffffff;
      ClearUse(inUse);
      CollectsStart(inUse[..], table);
    }

    /** The checksum of a run, one byte at a time. */
    method UpdateCrc(ch: Byte, n: nat, ghost s: seq<Byte>)
      requires blockCRC == CrcOf(table, s)
      modifies this`blockCRC
      ensures blockCRC == CrcOf(table, s + Repeat(ch, n))
    {
      hide CrcOf, Update;
      CrcRepeat(table, s, ch, 0);
      for i := 0 to n
        invariant blockCRC == CrcOf(table, s + Repeat(ch, i))
      {
        CrcRepeat(table, s, ch, i);
        blockCRC := Update(table, blockCRC, ch);
      }
    }

    /** add_pair_to_block: the pending run enters the block, taking at most five bytes. */
    method AddPairToBlock()
      requires Valid() && stateInCh < 256
      modifies this, inUse
      ensures inUse.Length == 256 && stateInCh == old(stateInCh) && stateInLen == old(stateInLen) && stateInCh < 256
      ensures runs == old(runs) + [ByteRun(stateInCh, stateInLen)] && PendingOk(stateInCh, stateInLen)
      ensures Collects(block, runs, inUse[..], blockCRC, table)
      ensures old(block) <= block && old(|block|) < |block| <= old(|block|) + 5
      ensures Plain(runs) == old(Taken())
    {
      hide Collects, CrcOf, Update, Plain;
      var ch: Byte := stateInCh;
      ghost var r, block0, used := ByteRun(ch, stateInLen), block, inUse[..];
      ghost var crc0 := blockCRC;
      CollectsCrc(block, runs, used, blockCRC, table);
      UpdateCrc(ch, stateInLen, Plain(runs));
      inUse[stateInCh] := true;
      if stateInLen == 1 {
        block := block + [ch];
      } else if stateInLen == 2 {
        block := block + [ch];
        block := block + [ch];
      } else if stateInLen == 3 {
        block := block + [ch];
        block := block + [ch];
        block := block + [ch];
      } else {
        inUse[stateInLen - 4] := true;
        block := block + [ch];
        block := block + [ch];
        block := block + [ch];
        block := block + [ch];
        block := block + [stateInLen - 4];
      }
      assert block == block0 + Packed(r);
      CollectsMore(block0, runs, used, crc0, table, r, inUse[..], blockCRC);
      runs := runs + [r];
    }

    /** flush_RL: nothing stays pending. */
    method FlushRL()
      requires Valid()
      modifies this, inUse
      ensures inUse.Length == 256 && stateInCh == 256 && stateInLen == 0
      ensures Collects(block, runs, inUse[..], blockCRC, table) && Plain(runs) == old(Taken())
      ensures old(block) <= block && |block| <= old(|block|) + 5
      ensures block == [] ==> old(Taken()) == []
    {
      hide Collects, Plain;
      EmptyBlock(block, runs, inUse[..], blockCRC, table);
      ghost var pending := Pending(stateInCh, stateInLen);
      assert stateInCh == 256 ==> Plain(runs) + pending == Plain(runs);
      if stateInCh < 256 {
        AddPairToBlock();
      }
      stateInCh, stateInLen := 256, 0;
    }

    /** ADD_CHAR_TO_BLOCK: one more input byte. */
    method AddChar(ch: Byte)
      requires Valid()
      modifies this, inUse
      ensures Valid() && Taken() == old(Taken()) + [ch]
      ensures old(block) <= block && |block| <= old(|block|) + 5
    {
      hide Collects, Plain, CrcOf, Update;
      ghost var before := Taken();
      if ch != stateInCh && stateInLen == 1 {
        var c: Byte := stateInCh;
        ghost var r, block0, used, crc0 := ByteRun(c, 1), block, inUse[..], blockCRC;
        CollectsCrc(block, runs, used, blockCRC, table);
        CrcRepeat(table, Plain(runs), c, 0);
        blockCRC := Update(table, blockCRC, c);
        inUse[stateInCh] := true;
        block := block + [c];
        assert block == block0 + Packed(r);
        CollectsMore(block0, runs, used, crc0, table, r, inUse[..], blockCRC);
        runs := runs + [r];
        stateInCh := ch;
        assert Plain(runs) == before;
        assert Pending(ch, 1) == [ch];
      } else if ch != stateInCh || stateInLen == 255 {
        if stateInCh < 256 {
          AddPairToBlock();
        } else {
          assert before == Plain(runs) + [];
        }
        stateInCh := ch;
        stateInLen := 1;
        assert Plain(runs) == before;
        assert Pending(ch, 1) == [ch];
      } else {
        assert Repeat(ch, stateInLen + 1) == Repeat(ch, stateInLen) + [ch];
        stateInLen := stateInLen + 1;
        assert before + [ch] == Plain(runs) + Pending(stateInCh, stateInLen);
      }
    }
  }

  method ClearUse(inUse: array<bool>)
    modifies inUse
  {
    for i := 0 to inUse.Length {
      inUse[i] := false;
    }
  }

  lemma CollectsCrc(block: seq<Byte>, runs: seq<ByteRun>, used: seq<bool>, crc: bv32, table: Table)
    requires Collects(block, runs, used, crc, table)
    ensures crc == CrcOf(table, Plain(runs))
  {
  }

  lemma EmptyBlock(block: seq<Byte>, runs: seq<ByteRun>, used: seq<bool>, crc: bv32, table: Table)
    requires Collects(block, runs, used, crc, table)
    ensures block == [] ==> runs == [] && Plain(runs) == []
    ensures runs == [] ==> block == [] && Plain(runs) == []
  {
    if runs != [] {
      PackedFirst(runs[|runs| - 1]);
    }
  }
}
