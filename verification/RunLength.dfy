/**
  The initial run-length coding: what add_pair_to_block puts into a block for a run, and
  how the decompressor takes it back.
 */
module RunLength {

  import opened Rotations
  import opened MoveToFront

  /** A run of equal input bytes: state_in_ch and state_in_len. */
  datatype ByteRun = ByteRun(ch: Byte, len: nat)

  const LONGEST_RUN: nat := 255

  predicate RunLegal(r: ByteRun) {
    1 <= r.len <= LONGEST_RUN
  }

  /** Runs as ADD_CHAR_TO_BLOCK cuts them: a new run starts with a new byte or after 255. */
  ghost predicate Cut(runs: seq<ByteRun>) {
    && (forall i :: 0 <= i < |runs| ==> RunLegal(runs[i]))
    && (forall i, j :: 0 <= i && j == i + 1 && j < |runs| ==> Splits(runs[i], runs[j].ch))
  }

  /** A byte that does not go on with run r. */
  predicate Splits(r: ByteRun, ch: Byte) {
    r.ch != ch || r.len == LONGEST_RUN
  }

  /** The bytes of a run in the block. */
  function Packed(r: ByteRun): (s: seq<Byte>)
    requires RunLegal(r)
  {
    if r.len < 4 then Repeat(r.ch, r.len) else Repeat(r.ch, 4) + [r.len - 4]
  }

  /** The block that holds the given runs. */
  ghost function PackedAll(runs: seq<ByteRun>): (s: seq<Byte>)
    requires forall i :: 0 <= i < |runs| ==> RunLegal(runs[i])
  {
    if runs == [] then [] else PackedAll(runs[..|runs| - 1]) + Packed(runs[|runs| - 1])
  }

  /** The input the given runs stand for. */
  ghost function Plain(runs: seq<ByteRun>): (s: seq<Byte>) {
    if runs == [] then [] else Plain(runs[..|runs| - 1]) + Repeat(runs[|runs| - 1].ch, runs[|runs| - 1].len)
  }

  // ----- Undoing -----

  /** Reading block bytes when the last n bytes read, n <= 4, were equal to ch. */
  function Unpack(s: seq<Byte>, ch: Byte, n: nat): (r: seq<Byte>)
    decreases |s|
  {
    if s == [] then []
    else if n == 4 then Repeat(ch, s[0]) + Unpack(s[1..], ch, 0)
    else if n > 0 && s[0] == ch then [ch] + Unpack(s[1..], ch, n + 1)
    else [s[0]] + Unpack(s[1..], s[0], 1)
  }

  function Unpacked(s: seq<Byte>): (r: seq<Byte>) {
    Unpack(s, 0, 0)
  }

  /** How many equal bytes stand at the end, after which a count is missing if they are four. */
  function Trailing(s: seq<Byte>, ch: Byte, n: nat): (r: nat)
    decreases |s|
  {
    if s == [] then n
    else if n == 4 then Trailing(s[1..], ch, 0)
    else if n > 0 && s[0] == ch then Trailing(s[1..], ch, n + 1)
    else Trailing(s[1..], s[0], 1)
  }

  /** No count byte is missing. */
  predicate Whole(s: seq<Byte>) {
    Trailing(s, 0, 0) != 4
  }

  /** Where no bytes are counted the byte before does not matter. */
  lemma UnpackFresh(s: seq<Byte>, ch: Byte, ch': Byte)
    ensures Unpack(s, ch, 0) == Unpack(s, ch', 0) && Trailing(s, ch, 0) == Trailing(s, ch', 0)
  {
  }

  /** A few more equal bytes. */
  lemma {:induction false} UnpackMore(ch: Byte, n: nat, k: nat, rest: seq<Byte>)
    requires 0 < n && n + k <= 4
    ensures Unpack(Repeat(ch, k) + rest, ch, n) == Repeat(ch, k) + Unpack(rest, ch, n + k)
    ensures Trailing(Repeat(ch, k) + rest, ch, n) == Trailing(rest, ch, n + k)
    decreases k
  {
    hide Unpack, Trailing;
    var s := Repeat(ch, k) + rest;
    if k == 0 {
      assert s == rest;
    } else {
      assert s[0] == ch && s[1..] == Repeat(ch, k - 1) + rest;
      UnpackMore(ch, n + 1, k - 1, rest);
      UnpackSame(s, ch, n);
      assert Repeat(ch, k) == [ch] + Repeat(ch, k - 1);
    }
  }

  lemma UnpackSame(s: seq<Byte>, ch: Byte, n: nat)
    requires s != [] && s[0] == ch && 0 < n < 4
    ensures Unpack(s, ch, n) == [ch] + Unpack(s[1..], ch, n + 1) && Trailing(s, ch, n) == Trailing(s[1..], ch, n + 1)
  {
  }

  /** Equal bytes from a fresh start. */
  lemma UnpackEqual(ch: Byte, k: nat, rest: seq<Byte>)
    requires 0 < k <= 4
    ensures Unpacked(Repeat(ch, k) + rest) == Repeat(ch, k) + Unpack(rest, ch, k)
    ensures Trailing(Repeat(ch, k) + rest, 0, 0) == Trailing(rest, ch, k)
  {
    var s := Repeat(ch, k) + rest;
    assert s[0] == ch && s[1..] == Repeat(ch, k - 1) + rest;
    UnpackMore(ch, 1, k - 1, rest);
    assert Repeat(ch, k) == [ch] + Repeat(ch, k - 1);
  }

  lemma UnpackCounted(ch: Byte, c: Byte, rest: seq<Byte>)
    ensures Unpacked(Repeat(ch, 4) + [c] + rest) == Repeat(ch, 4 + c) + Unpacked(rest)
    ensures Trailing(Repeat(ch, 4) + [c] + rest, 0, 0) == Trailing(rest, 0, 0)
  {
    UnpackEqual(ch, 4, [c] + rest);
    assert Repeat(ch, 4) + [c] + rest == Repeat(ch, 4) + ([c] + rest);
    assert ([c] + rest)[1..] == rest;
    UnpackFresh(rest, ch, 0);
    assert Repeat(ch, 4 + c) == Repeat(ch, 4) + Repeat(ch, c);
  }

  /** A byte that differs from the counted ones starts afresh. */
  lemma UnpackOther(s: seq<Byte>, ch: Byte, n: nat)
    requires n < 4 && (s == [] || s[0] != ch)
    ensures Unpack(s, ch, n) == Unpacked(s)
    ensures Trailing(s, ch, n) == if s == [] then n else Trailing(s, 0, 0)
  {
  }

  /** A packed run is taken back, whatever other run follows. */
  lemma UnpackRun(r: ByteRun, rest: seq<Byte>)
    requires RunLegal(r) && (rest != [] ==> Splits(r, rest[0]))
    ensures Unpacked(Packed(r) + rest) == Repeat(r.ch, r.len) + Unpacked(rest)
    ensures Whole(rest) ==> Whole(Packed(r) + rest)
  {
    hide Unpack, Trailing, Repeat;
    if r.len < 4 {
      UnpackEqual(r.ch, r.len, rest);
      UnpackOther(rest, r.ch, r.len);
      assert Packed(r) == Repeat(r.ch, r.len);
    } else {
      var c: Byte := r.len - 4;
      UnpackCounted(r.ch, c, rest);
      assert Packed(r) == Repeat(r.ch, 4) + [c];
      assert Unpacked(Packed(r) + rest) == Repeat(r.ch, 4 + c) + Unpacked(rest);
    }
  }

  lemma PackedFirst(r: ByteRun)
    requires RunLegal(r)
    ensures Packed(r) != [] && Packed(r)[0] == r.ch
  {
  }

  lemma CutPrefix(runs: seq<ByteRun>, m: nat)
    requires Cut(runs) && m <= |runs|
    ensures Cut(runs[..m])
  {
  }

  /** Whatever follows the last run, the runs before it come back. */
  lemma {:induction false} UnpackRuns(runs: seq<ByteRun>, rest: seq<Byte>)
    requires Cut(runs) && (runs != [] && rest != [] ==> Splits(runs[|runs| - 1], rest[0]))
    ensures Unpacked(PackedAll(runs) + rest) == Plain(runs) + Unpacked(rest)
    ensures Whole(rest) ==> Whole(PackedAll(runs) + rest)
    decreases |runs|
  {
    hide Unpacked, Packed, Whole, Repeat;
    if runs == [] {
      assert PackedAll(runs) + rest == rest;
    } else {
      var m := |runs| - 1;
      var r := runs[m];
      CutPrefix(runs, m);
      PackedFirst(r);
      var tail := Packed(r) + rest;
      assert m > 0 ==> Splits(runs[m - 1], runs[m].ch);
      UnpackRuns(runs[..m], tail);
      UnpackRun(r, rest);
      assert PackedAll(runs) + rest == PackedAll(runs[..m]) + tail;
      assert Plain(runs) + Unpacked(rest) == Plain(runs[..m]) + (Repeat(r.ch, r.len) + Unpacked(rest));
    }
  }

  /** The round trip of the initial run-length coding. */
  lemma RunsRestored(runs: seq<ByteRun>)
    requires Cut(runs)
    ensures Unpacked(PackedAll(runs)) == Plain(runs) && Whole(PackedAll(runs))
  {
    UnpackRuns(runs, []);
    assert PackedAll(runs) + [] == PackedAll(runs);
  }

  /** Every input is the plain text of runs cut this way, so none is left out. */
  lemma {:induction false} RunsExist(input: seq<Byte>) returns (runs: seq<ByteRun>)
    ensures Cut(runs) && Plain(runs) == input
    decreases |input|
  {
    if input == [] {
      runs := [];
    } else {
      var m := |input| - 1;
      var before := RunsExist(input[..m]);
      runs := Extended(before, input[m]);
      ExtendedPlain(before, input[m]);
      assert input == input[..m] + [input[m]];
    }
  }

  /** The runs after one more input byte, the pending run being the last. */
  ghost function Extended(runs: seq<ByteRun>, ch: Byte): (r: seq<ByteRun>) {
    if runs != [] && !Splits(runs[|runs| - 1], ch) then
      runs[..|runs| - 1] + [ByteRun(ch, runs[|runs| - 1].len + 1)]
    else runs + [ByteRun(ch, 1)]
  }

  lemma ExtendedPlain(runs: seq<ByteRun>, ch: Byte)
    requires Cut(runs)
    ensures Cut(Extended(runs, ch)) && Plain(Extended(runs, ch)) == Plain(runs) + [ch]
  {
    var e := Extended(runs, ch);
    if runs != [] && !Splits(runs[|runs| - 1], ch) {
      var m := |runs| - 1;
      assert e[..m] == runs[..m];
      assert Repeat(ch, runs[m].len + 1) == Repeat(ch, runs[m].len) + [ch];
      assert Plain(e) == Plain(runs[..m]) + Repeat(ch, runs[m].len + 1);
    } else {
      assert e[..|runs|] == runs;
      assert Repeat(ch, 1) == [ch];
    }
  }
}
