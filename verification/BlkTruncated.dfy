/** What the parser does with input that is cut short. */
module BlkTruncated {
  import opened Options
  import opened BlkParser
  import opened BlkTransactions

  // ----- Counts -------------------------------------------------------------------------------------

  /** A count in front of anything, cut after j bytes. */
  lemma CountPrefix(v: nat, tail: Bytes, j: nat)
    requires Short(v) && j <= |EncodeVarInt(v)| + |tail|
    ensures var c := EncodeVarInt(v);
      DecodeVarInt((c + tail)[..j]) ==
        if j == 0 then None else if v >= 0xfd && j <= |c| then Some(VarInt(0, |c|)) else Some(VarInt(v, |c|))
  {
    var c := EncodeVarInt(v);
    var raw := (c + tail)[..j];
    if j > 0 {
      assert raw[0] == c[0];
      if v >= 0xfd { VarIntBody(v); }
      if v < 0xfd || j > |c| {
        assert raw == c + tail[..j - |c|];
        VarIntRoundTrip(v, tail[..j - |c|]);
      }
    }
  }

  /** The same behind k bytes. */
  lemma CountBehind(pre: Bytes, v: nat, tail: Bytes, k: nat)
    requires Short(v) && |pre| <= k <= |pre| + |EncodeVarInt(v)| + |tail|
    ensures var c := EncodeVarInt(v);
      DecodeVarInt((pre + (c + tail))[..k][|pre|..]) ==
        if k == |pre| then None else if v >= 0xfd && k <= |pre| + |c| then Some(VarInt(0, |c|)) else Some(VarInt(v, |c|))
  {
    var c := EncodeVarInt(v);
    assert (pre + (c + tail))[..k][|pre|..] == (c + tail)[..k - |pre|];
    CountPrefix(v, tail, k - |pre|);
  }

  /** Counts that do not fit a signed 64-bit integer come out negative, and panic wherever they are used. */
  lemma HugeCount(env: Env, pre: Bytes, v: nat, rest: Bytes)
    requires 0x8000_0000_0000_0000 <= v < 0x1_0000_0000_0000_0000 && rest != []
    ensures var raw := pre + (EncodeVarInt(v) + rest);
      && ParseCount(raw, |pre|) == None && (pre == [] ==> ParseAll(env, raw) == None)
      && (|pre| == 36 ==> ParseIn(raw) == None) && (|pre| == 8 ==> ParseOut(env, raw) == None)
  {
    var raw := pre + (EncodeVarInt(v) + rest);
    VarIntRoundTrip(v, rest);
    Front(pre, EncodeVarInt(v) + rest);
    assert raw[0..] == raw;
  }

  // ----- Inputs and outputs ---------------------------------------------------------------------------

  /** An input that is cut short panics. */
  lemma InTruncated(x: WireIn, k: nat)
    requires InOK(x) && k < |EncodeIn(x)|
    ensures ParseIn(EncodeIn(x)[..k]) == None
  {
    InShape(x, []);
    assert EncodeIn(x) + [] == EncodeIn(x);
    var pre, tail := x.prev + LE(x.vout, 4), x.script + (LE(x.sequence, 4) + []);
    if k >= 36 { CountBehind(pre, |x.script|, tail, k); }
  }

  /** An output that is cut short panics, unless it is cut right behind a long count: then its script is
      read as empty. */
  lemma OutTruncated(env: Env, x: WireOut, k: nat)
    requires OutOK(x) && k < |EncodeOut(x)|
    ensures ParseOut(env, EncodeOut(x)[..k]) ==
      if |x.script| >= 0xfd && k == 8 + |EncodeVarInt(|x.script|)| then Some(Parsed(TxOut(env.addr([]), x.value, []), k)) else None
  {
    OutShape(x, []);
    assert EncodeOut(x) + [] == EncodeOut(x);
    var pre, tail := LE(x.value, 8), x.script + [];
    if k >= 8 {
      CountBehind(pre, |x.script|, tail, k);
      var raw := EncodeOut(x)[..k];
      assert raw[..8] == pre;
      Numbers(x.value);
      if |x.script| >= 0xfd && k == 8 + |EncodeVarInt(|x.script|)| { assert raw[k..k] == []; }
    }
  }

  // ----- Lists ------------------------------------------------------------------------------------------

  /** On its own bytes cut short, the reader panics or uses all there is; on nothing it panics. */
  ghost predicate NoRest<T(!new)>(read: Reader<T>, e: Bytes)
  {
    && read([]).None?
    && forall k: nat {:trigger read(e[..k])} :: k < |e| ==> read(e[..k]).None? || read(e[..k]).value.size == k
  }

  ghost predicate AllNoRest<T(!new)>(read: Reader<T>, es: seq<Bytes>)
  {
    forall k :: 0 <= k < |es| ==> NoRest(read, es[k])
  }

  ghost predicate UsesAll<T>(r: Option<Parsed<T>>, k: nat)
  {
    r.None? || r.value.size == k
  }

  lemma {:induction false} ManyTruncated<T(!new)>(read: Reader<T>, es: seq<Bytes>, xs: seq<T>, k: nat)
    requires AllRead(read, es, xs) && AllNoRest(read, es) && k <= |Concat(es)|
    ensures UsesAll(ParseMany(read, Concat(es)[..k], |xs|), k)
    decreases |es|
  {
    if es != [] {
      var e, rest := es[0], Concat(es[1..]);
      assert NoRest(read, e) && Reads(read, e, xs[0]);
      if k >= |e| {
        assert (e + rest)[..k] == e + rest[..k - |e|];
        ManyTruncated(read, es[1..], xs[1..], k - |e|);
        NextRead(read, e, rest[..k - |e|], xs[0], |xs|);
      } else {
        assert (e + rest)[..k] == e[..k];
        CutRead(read, e, k, |xs|);
      }
    }
  }

  /** One thing is read whole. */
  lemma NextRead<T(!new)>(read: Reader<T>, e: Bytes, rest: Bytes, x: T, n: nat)
    requires Reads(read, e, x) && n > 0 && UsesAll(ParseMany(read, rest, n - 1), |rest|)
    ensures UsesAll(ParseMany(read, e + rest, n), |e| + |rest|)
  {
    assert read(e + rest) == Some(Parsed(x, |e|));
    Front(e, rest);
  }

  /** One thing is cut: what follows it is missing. */
  lemma CutRead<T(!new)>(read: Reader<T>, e: Bytes, k: nat, n: nat)
    requires NoRest(read, e) && k < |e| && n > 0
    ensures UsesAll(ParseMany(read, e[..k], n), k)
  {
    var x := read(e[..k]);
    if x.Some? {
      assert e[..k][x.value.size..] == [];
      assert n > 1 ==> ParseMany(read, [], n - 1) == None;
    }
  }

  /** A counted list that is cut short, or ends the input. */
  lemma {:induction false} ListTruncated<T(!new)>(read: Reader<T>, raw: Bytes, pre: Bytes, es: seq<Bytes>, xs: seq<T>, k: nat)
    requires Short(|xs|) && AllRead(read, es, xs) && AllNoRest(read, es)
    requires raw == pre + (EncodeVarInt(|xs|) + Concat(es)) && k <= |raw|
    ensures UsesAll(ParseList(read, raw[..k], |pre|), k)
  {
    var c := EncodeVarInt(|xs|);
    if k >= |pre| {
      CountBehind(pre, |xs|, Concat(es), k);
      if k >= |pre| + |c| {
        assert raw[..k][|pre| + |c|..] == Concat(es)[..k - |pre| - |c|];
        ManyTruncated(read, es, xs, k - |pre| - |c|);
      }
    }
  }

  // ----- Transactions --------------------------------------------------------------------------------------

  lemma InsNoRest(xs: seq<WireIn>)
    requires forall k :: 0 <= k < |xs| ==> InOK(xs[k])
    ensures AllNoRest(ParseIn, EachIn(xs))
  {
    forall i | 0 <= i < |xs| ensures NoRest(ParseIn, EachIn(xs)[i]) {
      forall k: nat | k < |EncodeIn(xs[i])| ensures ParseIn(EncodeIn(xs[i])[..k]).None? { InTruncated(xs[i], k); }
    }
  }

  lemma OutsNoRest(env: Env, xs: seq<WireOut>)
    requires forall k :: 0 <= k < |xs| ==> OutOK(xs[k])
    ensures AllNoRest(OutReader(env), EachOut(xs))
  {
    forall i | 0 <= i < |xs| ensures NoRest(OutReader(env), EachOut(xs)[i]) {
      OutNoRest(env, xs[i]);
    }
  }

  lemma OutNoRest(env: Env, x: WireOut)
    requires OutOK(x)
    ensures NoRest(OutReader(env), EncodeOut(x))
  {
    var e := EncodeOut(x);
    forall k: nat | k < |e| ensures OutReader(env)(e[..k]).None? || OutReader(env)(e[..k]).value.size == k {
      OutTruncated(env, x, k);
    }
  }

  lemma CutWithin(v: Bytes, c: Bytes, a: Bytes, more: Bytes, k: nat)
    requires k <= |v| + |c| + |a|
    ensures (v + (c + (a + more)))[..k] == (v + (c + a))[..k]
  {
    assert v + (c + (a + more)) == (v + (c + a)) + more;
  }

  lemma CutLater(v: Bytes, c: Bytes, a: Bytes, more: Bytes, k: nat)
    requires |v| + |c| + |a| <= k <= |v| + |c| + |a| + |more|
    ensures (v + (c + (a + more)))[..k] == v + (c + (a + more[..k - |v| - |c| - |a|]))
  {
  }

  /** A counted list in a longer input that is cut within it. */
  lemma {:induction false} CutInList<T(!new)>(read: Reader<T>, raw: Bytes, pre: Bytes, es: seq<Bytes>, xs: seq<T>, more: Bytes, k: nat)
    requires Short(|xs|) && AllRead(read, es, xs) && AllNoRest(read, es)
    requires raw == pre + (EncodeVarInt(|xs|) + (Concat(es) + more)) && k <= |pre| + |EncodeVarInt(|xs|)| + |Concat(es)|
    ensures UsesAll(ParseList(read, raw[..k], |pre|), k)
  {
    CutWithin(pre, EncodeVarInt(|xs|), Concat(es), more, k);
    ListTruncated(read, pre + (EncodeVarInt(|xs|) + Concat(es)), pre, es, xs, k);
  }

  /** A counted list in a longer input that is cut behind it. */
  lemma {:induction false} CutBehindList<T(!new)>(read: Reader<T>, raw: Bytes, pre: Bytes, es: seq<Bytes>, xs: seq<T>, more: Bytes, k: nat)
    requires Short(|xs|) && AllRead(read, es, xs)
    requires raw == pre + (EncodeVarInt(|xs|) + (Concat(es) + more)) && |pre| + |EncodeVarInt(|xs|)| + |Concat(es)| < k <= |raw|
    ensures ParseList(read, raw[..k], |pre|) == Some(Parsed(xs, |pre| + |EncodeVarInt(|xs|)| + |Concat(es)|))
  {
    var end := |pre| + |EncodeVarInt(|xs|)| + |Concat(es)|;
    CutLater(pre, EncodeVarInt(|xs|), Concat(es), more, k);
    ListRoundTrip(read, raw[..k], pre, es, xs, more[..k - end]);
  }

  /** The two lists of a transaction that is cut within or behind them. */
  lemma {:induction false} CutAtIns(readIn: Reader<TxIn>, x: WireTx, ins: seq<TxIn>, k: nat)
    requires TxOK(x) && AllRead(readIn, EachIn(x.ins), ins) && AllNoRest(readIn, EachIn(x.ins)) && k <= |EncodeTx(x)|
    ensures var r := ParseList(readIn, EncodeTx(x)[..k], 4);
      if k <= InsEnd(x) then UsesAll(r, k) else r == Some(Parsed(ins, InsEnd(x)))
  {
    var more := ShapeHead(x, []);
    assert EncodeTx(x) + [] == EncodeTx(x);
    if k <= InsEnd(x) {
      CutInList(readIn, EncodeTx(x), LE(x.version, 4), EachIn(x.ins), ins, more, k);
    } else {
      CutBehindList(readIn, EncodeTx(x), LE(x.version, 4), EachIn(x.ins), ins, more, k);
    }
  }

  lemma {:induction false} CutAtOuts(readOut: Reader<TxOut>, x: WireTx, outs: seq<TxOut>, k: nat)
    requires TxOK(x) && AllRead(readOut, EachOut(x.outs), outs) && AllNoRest(readOut, EachOut(x.outs)) && k <= |EncodeTx(x)|
    ensures var r := ParseList(readOut, EncodeTx(x)[..k], InsEnd(x));
      if k <= OutsEnd(x) then UsesAll(r, k) else r == Some(Parsed(outs, OutsEnd(x)))
  {
    var pre, more := ShapeTail(x, []);
    assert EncodeTx(x) + [] == EncodeTx(x);
    if k <= OutsEnd(x) {
      CutInList(readOut, EncodeTx(x), pre, EachOut(x.outs), outs, more, k);
    } else {
      CutBehindList(readOut, EncodeTx(x), pre, EachOut(x.outs), outs, more, k);
    }
  }

  /** A transaction that is cut short, anywhere, panics. */
  lemma {:induction false} TxTruncated(env: Env, x: WireTx, k: nat)
    requires TxOK(x) && k < |EncodeTx(x)|
    ensures ParseTx(ParseIn, OutReader(env), EncodeTx(x)[..k]) == None
  {
    InsRead(x.ins);
    InsNoRest(x.ins);
    OutsRead(env, x.outs);
    OutsNoRest(env, x.outs);
    TxEnds(x, []);
    assert EncodeTx(x) + [] == EncodeTx(x);
    CutAtIns(ParseIn, x, InsFields(x.ins), k);
    if k <= InsEnd(x) {
      NothingBehind(OutReader(env), EncodeTx(x)[..k]);
    } else {
      CutAtOuts(OutReader(env), x, OutsFields(env, x.outs), k);
    }
  }

  /** A list that starts at the end of the input has no count. */
  lemma NothingBehind<T>(read: Reader<T>, raw: Bytes)
    ensures ParseList(read, raw, |raw|) == None
  {
    assert raw[|raw|..] == [];
  }

  // ----- The whole input ----------------------------------------------------------------------------------------

  /** On its own bytes cut short, the reader panics. */
  ghost predicate Panics<T(!new)>(read: Reader<T>, e: Bytes)
  {
    forall k: nat {:trigger read(e[..k])} :: k < |e| ==> read(e[..k]).None?
  }

  lemma {:induction false} ManyPanics<T(!new)>(read: Reader<T>, es: seq<Bytes>, xs: seq<T>, k: nat)
    requires AllRead(read, es, xs) && (forall i :: 0 <= i < |es| ==> Panics(read, es[i])) && k < |Concat(es)|
    ensures ParseMany(read, Concat(es)[..k], |xs|) == None
    decreases |es|
  {
    var e, rest := es[0], Concat(es[1..]);
    assert Panics(read, e) && Reads(read, e, xs[0]);
    if k < |e| {
      assert (e + rest)[..k] == e[..k];
    } else {
      assert (e + rest)[..k] == e + rest[..k - |e|];
      ManyPanics(read, es[1..], xs[1..], k - |e|);
      Front(e, rest[..k - |e|]);
      assert read(e + rest[..k - |e|]) == Some(Parsed(xs[0], |e|));
    }
  }

  lemma TxPanics(env: Env, x: WireTx)
    requires TxOK(x)
    ensures Panics(TxReader(env), EncodeTx(x))
  {
    var e := EncodeTx(x);
    forall k: nat | k < |e| ensures TxReader(env)(e[..k]).None? { TxTruncated(env, x, k); }
  }

  lemma {:induction false} TxsTruncated(env: Env, xs: seq<WireTx>, k: nat)
    requires (forall i :: 0 <= i < |xs| ==> TxOK(xs[i])) && k < |EncodeTxs(xs)|
    ensures ParseMany(TxReader(env), EncodeTxs(xs)[..k], |xs|) == None
  {
    TxsRead(env, xs);
    forall i | 0 <= i < |xs| ensures Panics(TxReader(env), EachTx(xs)[i]) { TxPanics(env, xs[i]); }
    ManyPanics(TxReader(env), EachTx(xs), TxsFields(env, xs), k);
  }

  /** Transactions that are cut short, anywhere, panic, except that a long count that is cut, or behind which
      nothing follows, is read as no transactions at all. */
  lemma TruncatedIff(env: Env, xs: seq<WireTx>, k: nat)
    requires Short(|xs|) && (forall i :: 0 <= i < |xs| ==> TxOK(xs[i])) && k < |EncodeVarInt(|xs|) + EncodeTxs(xs)|
    ensures ParseAll(env, (EncodeVarInt(|xs|) + EncodeTxs(xs))[..k]) ==
      if |xs| >= 0xfd && 0 < k <= |EncodeVarInt(|xs|)| then Some([]) else None
  {
    var c, all := EncodeVarInt(|xs|), EncodeTxs(xs);
    CountPrefix(|xs|, all, k);
    if k >= |c| && !(|xs| >= 0xfd && k == |c|) {
      Behind(c, all, k);
      TxsTruncated(env, xs, k - |c|);
    }
    CutParsed(env, (c + all)[..k], |xs|, |c|);
  }

  /** ParseTxs on input that is cut, by what its count and its transactions then yield. */
  lemma CutParsed(env: Env, raw: Bytes, n: nat, size: nat)
    requires DecodeVarInt(raw) == if raw == [] then None else if n >= 0xfd && |raw| <= size then Some(VarInt(0, size)) else Some(VarInt(n, size))
    requires (n < 0xfd ==> size == 1) && (n == 0 ==> raw == [])
    requires |raw| >= size && !(n >= 0xfd && |raw| == size) ==> ParseMany(TxReader(env), raw[size..], n) == None
    ensures ParseAll(env, raw) == if n >= 0xfd && 0 < |raw| <= size then Some([]) else None
  {
  }

  lemma Behind(c: Bytes, all: Bytes, k: nat)
    requires |c| <= k <= |c| + |all|
    ensures (c + all)[..k][|c|..] == all[..k - |c|]
  {
  }
}
