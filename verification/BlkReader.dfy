/** The parser's loops: an offset advances over the input and a list is filled. */
module BlkReader {
  import opened Options
  import opened BlkParser
  import opened BlkTransactions

  /** What has been read, in front of what the rest yields. */
  function Joined<T>(xs: seq<T>, offset: nat, rest: Option<Parsed<seq<T>>>): Option<Parsed<seq<T>>>
  {
    if rest.None? then None else Some(Parsed(xs + rest.value.value, offset + rest.value.size))
  }

  lemma {:induction false} JoinNext<T>(read: Reader<T>, raw: Bytes, offset: nat, k: nat, xs: seq<T>)
    requires offset <= |raw| && k > 0
    ensures var x, rest := read(raw[offset..]), ParseMany(read, raw[offset..], k);
      if x.None? || offset + x.value.size > |raw| then rest == None
      else Joined(xs, offset, rest) == Joined(xs + [x.value.value], offset + x.value.size, ParseMany(read, raw[offset + x.value.size..], k - 1))
  {
    var x := read(raw[offset..]);
    if x.Some? && offset + x.value.size <= |raw| {
      assert raw[offset..][x.value.size..] == raw[offset + x.value.size..];
      var more := ParseMany(read, raw[offset + x.value.size..], k - 1);
      if more.Some? {
        assert xs + ([x.value.value] + more.value.value) == xs + [x.value.value] + more.value.value;
      }
    }
  }

  /** The loop over inputs, over outputs and over transactions. */
  method ReadLoop<T>(read: Reader<T>, raw: Bytes, n: nat) returns (r: Option<Parsed<seq<T>>>)
    ensures r == ParseMany(read, raw, n)
  {
    var xs: seq<T>, offset := [], 0;
    ghost var goal := ParseMany(read, raw, n);
    assert raw[0..] == raw;
    assert goal.Some? ==> xs + goal.value.value == goal.value.value;
    for i := 0 to n
      invariant 0 <= offset <= |raw|
      invariant goal == Joined(xs, offset, ParseMany(read, raw[offset..], n - i))
    {
      var x := read(raw[offset..]);
      JoinNext(read, raw, offset, n - i, xs);
      if x.None? || offset + x.value.size > |raw| {
        return None;
      }
      xs := xs + [x.value.value];
      offset := offset + x.value.size;
    }
    assert xs + [] == xs;
    r := Some(Parsed(xs, offset));
  }

  /** A count and the loop behind it. */
  method ReadList<T>(read: Reader<T>, raw: Bytes, at: nat) returns (r: Option<Parsed<seq<T>>>)
    ensures r == ParseList(read, raw, at)
  {
    if at > |raw| {
      return None;
    }
    var v := DecodeVariableLengthInteger(raw[at..]);
    if v.None? || v.value.cnt < 0 || at + v.value.size > |raw| {
      return None;
    }
    var offset := at + v.value.size;
    var xs := ReadLoop(read, raw[offset..], v.value.cnt);
    if xs.None? {
      return None;
    }
    r := Some(Parsed(xs.value.value, offset + xs.value.size));
  }

  method NewTx(readIn: Reader<TxIn>, readOut: Reader<TxOut>, raw: Bytes) returns (r: Option<Parsed<Tx>>)
    ensures r == ParseTx(readIn, readOut, raw)
  {
    var ins := ReadList(readIn, raw, 4);
    if ins.None? {
      return None;
    }
    var outs := ReadList(readOut, raw, ins.value.size);
    if outs.None? || outs.value.size + 4 > |raw| {
      return None;
    }
    var at := outs.value.size;
    var tx := Tx("", 0, FromLE(raw[at..at + 4]), FromLE(raw[..4]), Uint32(|ins.value.value|), Uint32(|outs.value.value|),
                 ins.value.value, outs.value.value);
    r := Some(Parsed(tx, at + 4));
  }

  method ParseTxs(env: Env, raw: Bytes) returns (r: Option<seq<Tx>>)
    ensures r == ParseAll(env, raw)
  {
    var v := DecodeVariableLengthInteger(raw);
    if v.None? || v.value.cnt < 0 {
      return None;
    }
    if v.value.cnt == 0 {
      return Some([]);
    }
    if v.value.size > |raw| {
      return None;
    }
    var txs := ReadLoop(TxReader(env), raw[v.value.size..], v.value.cnt);
    r := if txs.None? then None else Some(txs.value.value);
  }
}
