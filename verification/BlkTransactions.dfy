/** Parsing transactions, and the round trip with their wire form. */
module BlkTransactions {
  import opened Options
  import opened BlkParser

  // ----- What the parser returns ----------------------------------------------------------------------

  datatype TxIn = TxIn(inputHash: string, inputVout: nat, scriptSig: Bytes, sequence: nat)

  datatype TxOut = TxOut(addr: string, value: nat, pkscript: Bytes)

  datatype Tx = Tx(hash: string, size: nat, lockTime: nat, version: nat, txInCnt: nat, txOutCnt: nat, txIns: seq<TxIn>, txOuts: seq<TxOut>)

  datatype Parsed<T> = Parsed(value: T, size: nat)

  /** txid stands for GetShaString, addr for the address extraction from a script. */
  datatype Env = Env(txid: Bytes -> string, addr: Bytes -> string)

  function Uint32(v: int): (r: nat)
    ensures r < 0x1_0000_0000 && (v - r) % 0x1_0000_0000 == 0
  {
    v % 0x1_0000_0000
  }

  // ----- The parser as functions --------------------------------------------------------------------------

  function ParseIn(raw: Bytes): Option<Parsed<TxIn>>
  {
    if |raw| < 36 then None
    else
      var v := DecodeVarInt(raw[36..]);
      if v.None? then None
      else
        var at, n := 36 + v.value.size, v.value.cnt;
        if n < 0 || at + n + 4 > |raw| then None
        else Some(Parsed(TxIn(HexReversed(raw[..32]), FromLE(raw[32..36]), raw[at..at + n], FromLE(raw[at + n..at + n + 4])), at + n + 4))
  }

  function ParseOut(env: Env, raw: Bytes): Option<Parsed<TxOut>>
  {
    if |raw| < 8 then None
    else
      var v := DecodeVarInt(raw[8..]);
      if v.None? then None
      else
        var at, n := 8 + v.value.size, v.value.cnt;
        if n < 0 || at + n > |raw| then None
        else Some(Parsed(TxOut(env.addr(raw[at..at + n]), FromLE(raw[..8]), raw[at..at + n]), at + n))
  }

  /** Reads one thing from the front of its input; None is the panic. */
  type Reader<!T> = Bytes -> Option<Parsed<T>>

  /** k things, one behind the other. */
  function ParseMany<T>(read: Reader<T>, raw: Bytes, k: nat): Option<Parsed<seq<T>>>
    decreases k
  {
    if k == 0 then Some(Parsed([], 0))
    else
      var x := read(raw);
      if x.None? || x.value.size > |raw| then None
      else
        var more := ParseMany(read, raw[x.value.size..], k - 1);
        if more.None? then None else Some(Parsed([x.value.value] + more.value.value, x.value.size + more.value.size))
  }

  function OutReader(env: Env): Reader<TxOut>
  {
    (raw: Bytes) => ParseOut(env, raw)
  }

  /** A count and where the counted things start. */
  datatype Count = Count(count: nat, at: nat)

  function ParseCount(raw: Bytes, at: nat): Option<Count>
  {
    if at > |raw| then None
    else
      var v := DecodeVarInt(raw[at..]);
      if v.None? || v.value.cnt < 0 || at + v.value.size > |raw| then None
      else Some(Count(v.value.cnt, at + v.value.size))
  }

  /** A counted list that starts at an offset, and where it ends. */
  function ParseList<T>(read: Reader<T>, raw: Bytes, at: nat): Option<Parsed<seq<T>>>
  {
    var c := ParseCount(raw, at);
    if c.None? then None
    else
      var xs := ParseMany(read, raw[c.value.at..], c.value.count);
      if xs.None? then None else Some(Parsed(xs.value.value, c.value.at + xs.value.size))
  }

  /** A transaction; its hash and size are filled in by ParseTxs. */
  function ParseTx(readIn: Reader<TxIn>, readOut: Reader<TxOut>, raw: Bytes): Option<Parsed<Tx>>
  {
    var ins := ParseList(readIn, raw, 4);
    if ins.None? then None
    else
      var outs := ParseList(readOut, raw, ins.value.size);
      if outs.None? || outs.value.size + 4 > |raw| then None
      else
        var at := outs.value.size;
        Some(Parsed(Tx("", 0, FromLE(raw[at..at + 4]), FromLE(raw[..4]), Uint32(|ins.value.value|), Uint32(|outs.value.value|),
                       ins.value.value, outs.value.value), at + 4))
  }

  /** A transaction with the hash of its bytes and their number. */
  function TxReader(env: Env): Reader<Tx>
  {
    (raw: Bytes) =>
      var x := ParseTx(ParseIn, OutReader(env), raw);
      if x.None? || x.value.size > |raw| then None
      else Some(Parsed(x.value.value.(hash := env.txid(raw[..x.value.size]), size := Uint32(x.value.size)), x.value.size))
  }

  function ParseAll(env: Env, raw: Bytes): Option<seq<Tx>>
  {
    var v := DecodeVarInt(raw);
    if v.None? || v.value.cnt < 0 then None
    else if v.value.cnt == 0 then Some([])
    else if v.value.size > |raw| then None
    else
      var txs := ParseMany(TxReader(env), raw[v.value.size..], v.value.cnt);
      if txs.None? then None else Some(txs.value.value)
  }

  // ----- The wire form ------------------------------------------------------------------------------------------

  datatype WireIn = WireIn(prev: Bytes, vout: nat, script: Bytes, sequence: nat)
  datatype WireOut = WireOut(value: nat, script: Bytes)
  datatype WireTx = WireTx(version: nat, ins: seq<WireIn>, outs: seq<WireOut>, lockTime: nat)

  /** Lengths are counted with a signed 64-bit integer. */
  predicate Short(n: nat)
  {
    n < 0x8000_0000_0000_0000
  }

  predicate InOK(x: WireIn)
  {
    |x.prev| == 32 && x.vout < 0x1_0000_0000 && Short(|x.script|) && x.sequence < 0x1_0000_0000
  }

  predicate OutOK(x: WireOut)
  {
    x.value < 0x1_0000_0000_0000_0000 && Short(|x.script|)
  }

  predicate TxOK(x: WireTx)
  {
    && x.version < 0x1_0000_0000 && x.lockTime < 0x1_0000_0000
    && Short(|x.ins|) && Short(|x.outs|)
    && (forall k :: 0 <= k < |x.ins| ==> InOK(x.ins[k]))
    && (forall k :: 0 <= k < |x.outs| ==> OutOK(x.outs[k]))
  }

  function EncodeIn(x: WireIn): Bytes
    requires InOK(x)
  {
    x.prev + LE(x.vout, 4) + EncodeVarInt(|x.script|) + x.script + LE(x.sequence, 4)
  }

  function EncodeOut(x: WireOut): Bytes
    requires OutOK(x)
  {
    LE(x.value, 8) + EncodeVarInt(|x.script|) + x.script
  }

  function Concat(parts: seq<Bytes>): Bytes
  {
    if parts == [] then [] else parts[0] + Concat(parts[1..])
  }

  function EachIn(xs: seq<WireIn>): (r: seq<Bytes>)
    requires forall k :: 0 <= k < |xs| ==> InOK(xs[k])
    ensures |r| == |xs| && forall k :: 0 <= k < |xs| ==> r[k] == EncodeIn(xs[k])
  {
    if xs == [] then [] else [EncodeIn(xs[0])] + EachIn(xs[1..])
  }

  function EachOut(xs: seq<WireOut>): (r: seq<Bytes>)
    requires forall k :: 0 <= k < |xs| ==> OutOK(xs[k])
    ensures |r| == |xs| && forall k :: 0 <= k < |xs| ==> r[k] == EncodeOut(xs[k])
  {
    if xs == [] then [] else [EncodeOut(xs[0])] + EachOut(xs[1..])
  }

  function EncodeIns(xs: seq<WireIn>): Bytes
    requires forall k :: 0 <= k < |xs| ==> InOK(xs[k])
  {
    Concat(EachIn(xs))
  }

  function EncodeOuts(xs: seq<WireOut>): Bytes
    requires forall k :: 0 <= k < |xs| ==> OutOK(xs[k])
  {
    Concat(EachOut(xs))
  }

  function EncodeTx(x: WireTx): Bytes
    requires TxOK(x)
  {
    LE(x.version, 4) + EncodeVarInt(|x.ins|) + EncodeIns(x.ins) + EncodeVarInt(|x.outs|) + EncodeOuts(x.outs) + LE(x.lockTime, 4)
  }

  function EachTx(xs: seq<WireTx>): (r: seq<Bytes>)
    requires forall k :: 0 <= k < |xs| ==> TxOK(xs[k])
    ensures |r| == |xs| && forall k :: 0 <= k < |xs| ==> r[k] == EncodeTx(xs[k])
  {
    seq(|xs|, k requires 0 <= k < |xs| && TxOK(xs[k]) => EncodeTx(xs[k]))
  }

  function EncodeTxs(xs: seq<WireTx>): Bytes
    requires forall k :: 0 <= k < |xs| ==> TxOK(xs[k])
  {
    Concat(EachTx(xs))
  }

  /** What the parser should return for a wire transaction. */
  function InFields(x: WireIn): TxIn
  {
    TxIn(HexReversed(x.prev), x.vout, x.script, x.sequence)
  }

  function OutFields(env: Env, x: WireOut): TxOut
  {
    TxOut(env.addr(x.script), x.value, x.script)
  }

  function InsFields(xs: seq<WireIn>): (r: seq<TxIn>)
    ensures |r| == |xs| && forall k :: 0 <= k < |xs| ==> r[k] == InFields(xs[k])
  {
    if xs == [] then [] else [InFields(xs[0])] + InsFields(xs[1..])
  }

  function OutsFields(env: Env, xs: seq<WireOut>): (r: seq<TxOut>)
    ensures |r| == |xs| && forall k :: 0 <= k < |xs| ==> r[k] == OutFields(env, xs[k])
  {
    if xs == [] then [] else [OutFields(env, xs[0])] + OutsFields(env, xs[1..])
  }

  /** The counts and the size are kept as uint32. */
  function TxFields(env: Env, x: WireTx): Tx
    requires TxOK(x)
  {
    Tx(env.txid(EncodeTx(x)), Uint32(|EncodeTx(x)|), x.lockTime, x.version, Uint32(|x.ins|), Uint32(|x.outs|),
       InsFields(x.ins), OutsFields(env, x.outs))
  }

  function TxsFields(env: Env, xs: seq<WireTx>): (r: seq<Tx>)
    requires forall k :: 0 <= k < |xs| ==> TxOK(xs[k])
    ensures |r| == |xs| && forall k :: 0 <= k < |xs| ==> r[k] == TxFields(env, xs[k])
  {
    seq(|xs|, k requires 0 <= k < |xs| && TxOK(xs[k]) => TxFields(env, xs[k]))
  }

  // ----- The round trip ---------------------------------------------------------------------------------------------

  lemma Numbers(v: nat)
    ensures v < 0x1_0000_0000 ==> FromLE(LE(v, 4)) == v
    ensures v < 0x1_0000_0000_0000_0000 ==> FromLE(LE(v, 8)) == v
  {
    assert Pow256(4) == 0x1_0000_0000;
    assert Pow256(8) == Pow256(4) * 0x1_0000_0000;
    if v < 0x1_0000_0000 { LERoundTrip(v, 4); }
    if v < 0x1_0000_0000_0000_0000 { LERoundTrip(v, 8); }
  }

  lemma Assoc(a: Bytes, b: Bytes, c: Bytes)
    ensures (a + b) + c == a + (b + c)
  {
  }

  /** A cut past the end of the first part. */
  lemma Cut(a: Bytes, b: Bytes, i: nat, j: nat)
    requires |a| <= i <= j <= |a| + |b|
    ensures (a + b)[i..j] == b[i - |a|..j - |a|] && (a + b)[i..] == b[i - |a|..]
  {
  }

  lemma Front(a: Bytes, b: Bytes)
    ensures (a + b)[..|a|] == a && (a + b)[|a|..] == b
  {
  }

  /** A script behind its count, with k bytes before them. */
  lemma {:induction false} ScriptRoundTrip(before: Bytes, script: Bytes, rest: Bytes)
    requires Short(|script|)
    ensures var raw, c := before + (EncodeVarInt(|script|) + (script + rest)), EncodeVarInt(|script|);
      var at, n := |before| + |c|, |script|;
      && DecodeVarInt(raw[|before|..]) == Some(VarInt(n, |c|))
      && |raw| == at + n + |rest| && raw[at..at + n] == script && raw[at + n..] == rest
  {
    var c, n := EncodeVarInt(|script|), |script|;
    var raw := before + (c + (script + rest));
    Front(before, c + (script + rest));
    VarIntRoundTrip(n, script + rest);
    Cut(before, c + (script + rest), |before| + |c|, |before| + |c| + n);
    Cut(before, c + (script + rest), |before| + |c| + n, |raw|);
    Cut(c, script + rest, |c|, |c| + n);
    Cut(c, script + rest, |c| + n, |c| + n + |rest|);
    Front(script, rest);
  }

  lemma InShape(x: WireIn, rest: Bytes)
    requires InOK(x)
    ensures EncodeIn(x) + rest == (x.prev + LE(x.vout, 4)) + (EncodeVarInt(|x.script|) + (x.script + (LE(x.sequence, 4) + rest)))
  {
    var a, c, d, e := x.prev + LE(x.vout, 4), EncodeVarInt(|x.script|), x.script, LE(x.sequence, 4);
    Assoc(a + c + d, e, rest);
    Assoc(a + c, d, e + rest);
    Assoc(a, c, d + (e + rest));
  }

  lemma {:induction false} InRoundTrip(x: WireIn, rest: Bytes)
    requires InOK(x)
    ensures ParseIn(EncodeIn(x) + rest) == Some(Parsed(InFields(x), |EncodeIn(x)|))
  {
    var before, last, n := x.prev + LE(x.vout, 4), LE(x.sequence, 4) + rest, |x.script|;
    var raw := EncodeIn(x) + rest;
    InShape(x, rest);
    ScriptRoundTrip(before, x.script, last);
    Front(x.prev, LE(x.vout, 4));
    Front(LE(x.sequence, 4), rest);
    var at := 36 + |EncodeVarInt(n)|;
    assert raw[..36] == before && raw[..32] == before[..32] && raw[32..36] == before[32..];
    assert raw[at + n..at + n + 4] == raw[at + n..][..4];
    Numbers(x.vout);
    Numbers(x.sequence);
  }

  lemma OutShape(x: WireOut, rest: Bytes)
    requires OutOK(x)
    ensures EncodeOut(x) + rest == LE(x.value, 8) + (EncodeVarInt(|x.script|) + (x.script + rest))
  {
    var a, c, d := LE(x.value, 8), EncodeVarInt(|x.script|), x.script;
    Assoc(a + c, d, rest);
    Assoc(a, c, d + rest);
  }

  lemma {:induction false} OutRoundTrip(env: Env, x: WireOut, rest: Bytes)
    requires OutOK(x)
    ensures ParseOut(env, EncodeOut(x) + rest) == Some(Parsed(OutFields(env, x), |EncodeOut(x)|))
  {
    OutShape(x, rest);
    ScriptRoundTrip(LE(x.value, 8), x.script, rest);
    Front(LE(x.value, 8), EncodeVarInt(|x.script|) + (x.script + rest));
    Numbers(x.value);
  }

  /** These bytes in front of any input are read as this value. */
  ghost predicate Reads<T(!new)>(read: Reader<T>, e: Bytes, x: T)
  {
    forall rest {:trigger read(e + rest)} :: read(e + rest) == Some(Parsed(x, |e|))
  }

  lemma {:induction false} ReadStep<T(!new)>(read: Reader<T>, e: Bytes, rest: Bytes, x: T, xs: seq<T>, more: nat)
    requires Reads(read, e, x) && ParseMany(read, rest, |xs|) == Some(Parsed(xs, more))
    ensures ParseMany(read, e + rest, |xs| + 1) == Some(Parsed([x] + xs, |e| + more))
  {
    Front(e, rest);
    assert read(e + rest) == Some(Parsed(x, |e|));
  }

  lemma {:induction false} ReadMany<T(!new)>(read: Reader<T>, es: seq<Bytes>, xs: seq<T>, rest: Bytes)
    requires AllRead(read, es, xs)
    ensures ParseMany(read, Concat(es) + rest, |xs|) == Some(Parsed(xs, |Concat(es)|))
  {
    if xs != [] {
      Assoc(es[0], Concat(es[1..]), rest);
      ReadMany(read, es[1..], xs[1..], rest);
      ReadStep(read, es[0], Concat(es[1..]) + rest, xs[0], xs[1..], |Concat(es[1..])|);
      assert [xs[0]] + xs[1..] == xs;
    }
  }

  lemma {:induction false} InReads(x: WireIn)
    requires InOK(x)
    ensures Reads(ParseIn, EncodeIn(x), InFields(x))
  {
    forall rest ensures ParseIn(EncodeIn(x) + rest) == Some(Parsed(InFields(x), |EncodeIn(x)|)) {
      InRoundTrip(x, rest);
    }
  }

  lemma {:induction false} OutReads(env: Env, x: WireOut)
    requires OutOK(x)
    ensures Reads(OutReader(env), EncodeOut(x), OutFields(env, x))
  {
    forall rest ensures OutReader(env)(EncodeOut(x) + rest) == Some(Parsed(OutFields(env, x), |EncodeOut(x)|)) {
      OutRoundTrip(env, x, rest);
    }
  }

  ghost predicate AllRead<T(!new)>(read: Reader<T>, es: seq<Bytes>, xs: seq<T>)
  {
    |es| == |xs| && forall k :: 0 <= k < |es| ==> Reads(read, es[k], xs[k])
  }

  lemma {:induction false} InsRead(xs: seq<WireIn>)
    requires forall k :: 0 <= k < |xs| ==> InOK(xs[k])
    ensures AllRead(ParseIn, EachIn(xs), InsFields(xs))
  {
    forall k | 0 <= k < |xs| ensures Reads(ParseIn, EachIn(xs)[k], InsFields(xs)[k]) {
      InReads(xs[k]);
    }
  }

  lemma {:induction false} OutsRead(env: Env, xs: seq<WireOut>)
    requires forall k :: 0 <= k < |xs| ==> OutOK(xs[k])
    ensures AllRead(OutReader(env), EachOut(xs), OutsFields(env, xs))
  {
    forall k | 0 <= k < |xs| ensures Reads(OutReader(env), EachOut(xs)[k], OutsFields(env, xs)[k]) {
      OutReads(env, xs[k]);
    }
  }

  lemma CountRoundTrip(before: Bytes, n: nat, rest: Bytes)
    requires Short(n) && rest != []
    ensures var raw, c := before + (EncodeVarInt(n) + rest), EncodeVarInt(n);
      && ParseCount(raw, |before|) == Some(Count(n, |before| + |c|))
      && raw[|before| + |c|..] == rest
  {
    var c := EncodeVarInt(n);
    Front(before, c + rest);
    VarIntRoundTrip(n, rest);
    Cut(before, c + rest, |before| + |c|, |before| + |c| + |rest|);
    Front(c, rest);
  }

  /** The wire form of a transaction, split before its second count. */
  lemma TxShape(x: WireTx, rest: Bytes)
    requires TxOK(x)
    ensures var v, ca, a := LE(x.version, 4), EncodeVarInt(|x.ins|), EncodeIns(x.ins);
      var outs := EncodeVarInt(|x.outs|) + (EncodeOuts(x.outs) + (LE(x.lockTime, 4) + rest));
      EncodeTx(x) + rest == v + (ca + (a + outs)) == (v + ca + a) + outs
  {
    var v, ca, a := LE(x.version, 4), EncodeVarInt(|x.ins|), EncodeIns(x.ins);
    var cb, b, l := EncodeVarInt(|x.outs|), EncodeOuts(x.outs), LE(x.lockTime, 4);
    var pre := v + ca + a;
    Assoc(pre + cb + b, l, rest);
    Assoc(pre + cb, b, l + rest);
    Assoc(pre, cb, b + (l + rest));
    Assoc(v + ca, a, cb + (b + (l + rest)));
    Assoc(v, ca, a + (cb + (b + (l + rest))));
  }

  /** A counted list behind the bytes pre is read. */
  lemma {:induction false} ListRoundTrip<T(!new)>(read: Reader<T>, raw: Bytes, pre: Bytes, es: seq<Bytes>, xs: seq<T>, rest: Bytes)
    requires Short(|xs|) && rest != [] && AllRead(read, es, xs)
    requires raw == pre + (EncodeVarInt(|xs|) + (Concat(es) + rest))
    ensures ParseList(read, raw, |pre|) == Some(Parsed(xs, |pre| + |EncodeVarInt(|xs|)| + |Concat(es)|))
  {
    ReadMany(read, es, xs, rest);
    CountRoundTrip(pre, |xs|, Concat(es) + rest);
    ListParts(read, raw, |pre|, Count(|xs|, |pre| + |EncodeVarInt(|xs|)|), xs, |Concat(es)|);
  }

  lemma {:induction false} ListParts<T>(read: Reader<T>, raw: Bytes, at: nat, c: Count, xs: seq<T>, size: nat)
    requires ParseCount(raw, at) == Some(c) && c.at <= |raw| && ParseMany(read, raw[c.at..], c.count) == Some(Parsed(xs, size))
    ensures ParseList(read, raw, at) == Some(Parsed(xs, c.at + size))
  {
  }

  /** Where the inputs and the outputs of an encoded transaction end. */
  function InsEnd(x: WireTx): nat
    requires TxOK(x)
  {
    4 + |EncodeVarInt(|x.ins|)| + |EncodeIns(x.ins)|
  }

  function OutsEnd(x: WireTx): nat
    requires TxOK(x)
  {
    InsEnd(x) + |EncodeVarInt(|x.outs|)| + |EncodeOuts(x.outs)|
  }

  lemma ShapeHead(x: WireTx, rest: Bytes) returns (more: Bytes)
    requires TxOK(x)
    ensures more != [] && EncodeTx(x) + rest == LE(x.version, 4) + (EncodeVarInt(|x.ins|) + (EncodeIns(x.ins) + more))
  {
    TxShape(x, rest);
    more := EncodeVarInt(|x.outs|) + (EncodeOuts(x.outs) + (LE(x.lockTime, 4) + rest));
  }

  lemma ShapeTail(x: WireTx, rest: Bytes) returns (pre: Bytes, more: Bytes)
    requires TxOK(x)
    ensures more != [] && |pre| == InsEnd(x) && EncodeTx(x) + rest == pre + (EncodeVarInt(|x.outs|) + (EncodeOuts(x.outs) + more))
  {
    TxShape(x, rest);
    pre := LE(x.version, 4) + EncodeVarInt(|x.ins|) + EncodeIns(x.ins);
    more := LE(x.lockTime, 4) + rest;
  }

  lemma {:induction false} TxEnds(x: WireTx, rest: Bytes)
    requires TxOK(x)
    ensures var raw, end := EncodeTx(x) + rest, OutsEnd(x);
      |EncodeTx(x)| == end + 4 && raw[..4] == LE(x.version, 4) && raw[end..end + 4] == LE(x.lockTime, 4)
  {
    var v, ca, a := LE(x.version, 4), EncodeVarInt(|x.ins|), EncodeIns(x.ins);
    var cb, b, l := EncodeVarInt(|x.outs|), EncodeOuts(x.outs), LE(x.lockTime, 4);
    TxShape(x, rest);
    Front(v, ca + (a + (cb + (b + (l + rest)))));
    EndOfTx(v + ca + a, cb, b, l, rest);
  }

  /** The parser on a transaction, given what its two lists yield. */
  lemma {:induction false} ParseTxParts(readIn: Reader<TxIn>, readOut: Reader<TxOut>, raw: Bytes, v: Bytes, ins: seq<TxIn>, at: nat, outs: seq<TxOut>, end: nat, l: Bytes)
    requires ParseList(readIn, raw, 4) == Some(Parsed(ins, at)) && ParseList(readOut, raw, at) == Some(Parsed(outs, end))
    requires end + 4 <= |raw| && raw[..4] == v && raw[end..end + 4] == l
    ensures ParseTx(readIn, readOut, raw) ==
      Some(Parsed(Tx("", 0, FromLE(l), FromLE(v), Uint32(|ins|), Uint32(|outs|), ins, outs), end + 4))
  {
  }

  lemma {:induction false} TxIns(readIn: Reader<TxIn>, x: WireTx, ins: seq<TxIn>, rest: Bytes)
    requires TxOK(x) && AllRead(readIn, EachIn(x.ins), ins)
    ensures ParseList(readIn, EncodeTx(x) + rest, 4) == Some(Parsed(ins, InsEnd(x)))
  {
    var more := ShapeHead(x, rest);
    ListRoundTrip(readIn, EncodeTx(x) + rest, LE(x.version, 4), EachIn(x.ins), ins, more);
  }

  lemma {:induction false} TxOuts(readOut: Reader<TxOut>, x: WireTx, outs: seq<TxOut>, rest: Bytes)
    requires TxOK(x) && AllRead(readOut, EachOut(x.outs), outs)
    ensures ParseList(readOut, EncodeTx(x) + rest, InsEnd(x)) == Some(Parsed(outs, OutsEnd(x)))
  {
    var pre, more := ShapeTail(x, rest);
    ListRoundTrip(readOut, EncodeTx(x) + rest, pre, EachOut(x.outs), outs, more);
  }

  lemma {:induction false} TxRoundTrip(readIn: Reader<TxIn>, readOut: Reader<TxOut>, x: WireTx, ins: seq<TxIn>, outs: seq<TxOut>, rest: Bytes)
    requires TxOK(x) && AllRead(readIn, EachIn(x.ins), ins) && AllRead(readOut, EachOut(x.outs), outs)
    ensures ParseTx(readIn, readOut, EncodeTx(x) + rest) ==
      Some(Parsed(Tx("", 0, x.lockTime, x.version, Uint32(|ins|), Uint32(|outs|), ins, outs), |EncodeTx(x)|))
  {
    TxIns(readIn, x, ins, rest);
    TxOuts(readOut, x, outs, rest);
    TxEnds(x, rest);
    ParseTxParts(readIn, readOut, EncodeTx(x) + rest, LE(x.version, 4), ins, InsEnd(x), outs, OutsEnd(x), LE(x.lockTime, 4));
    Numbers(x.version);
    Numbers(x.lockTime);
  }

  lemma {:induction false} EndOfTx(pre: Bytes, c: Bytes, b: Bytes, l: Bytes, rest: Bytes)
    ensures var end := |pre| + |c| + |b|;
      (pre + (c + (b + (l + rest))))[end..end + |l|] == l
  {
    var end := |pre| + |c| + |b|;
    Cut(pre, c + (b + (l + rest)), end, end + |l|);
    Cut(c, b + (l + rest), |c| + |b|, |c| + |b| + |l|);
    Cut(b, l + rest, |b|, |b| + |l|);
    Front(l, rest);
  }

  lemma {:induction false} TxReads(env: Env, x: WireTx)
    requires TxOK(x)
    ensures Reads(TxReader(env), EncodeTx(x), TxFields(env, x))
  {
    InsRead(x.ins);
    OutsRead(env, x.outs);
    forall rest ensures TxReader(env)(EncodeTx(x) + rest) == Some(Parsed(TxFields(env, x), |EncodeTx(x)|)) {
      TxRoundTrip(ParseIn, OutReader(env), x, InsFields(x.ins), OutsFields(env, x.outs), rest);
      Front(EncodeTx(x), rest);
    }
  }

  lemma {:induction false} TxsRead(env: Env, xs: seq<WireTx>)
    requires forall k :: 0 <= k < |xs| ==> TxOK(xs[k])
    ensures AllRead(TxReader(env), EachTx(xs), TxsFields(env, xs))
  {
    forall k | 0 <= k < |xs| ensures Reads(TxReader(env), EachTx(xs)[k], TxsFields(env, xs)[k]) {
      TxReads(env, xs[k]);
    }
  }

  /** ParseTxs undoes the wire encoding of every list of well-formed transactions. */
  lemma RoundTrip(env: Env, xs: seq<WireTx>, rest: Bytes)
    requires Short(|xs|) && forall k :: 0 <= k < |xs| ==> TxOK(xs[k])
    ensures ParseAll(env, EncodeVarInt(|xs|) + EncodeTxs(xs) + rest) == Some(TxsFields(env, xs))
  {
    var c, tail := EncodeVarInt(|xs|), EncodeTxs(xs) + rest;
    Assoc(c, EncodeTxs(xs), rest);
    VarIntRoundTrip(|xs|, tail);
    Front(c, tail);
    TxsRead(env, xs);
    ReadMany(TxReader(env), EachTx(xs), TxsFields(env, xs), rest);
  }
}
