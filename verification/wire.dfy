/** The wire grammar: CompactSize integers, transactions with or without witness, and the CAuxPow
    payload. Every value keeps the integer widths the sender chose, so that serializing a parsed value
    gives back the very bytes it was parsed from. */
module Wire {
  import opened Arith
  import opened Bytes

  datatype CoinbaseFault = NoSegwitFlag | ZeroInputs | ScriptSigOverruns | ScriptPubKeyOverruns

  datatype ParseError =
    | TruncatedHeader(len: nat)
    | Truncated
    | BadCoinbase(fault: CoinbaseFault)
    | MissingParentHeader
    | NoAuxPow
    | BadBranch(count: nat)

  /** A value and the bytes that follow it. */
  type Parsed<T> = Result<(T, Bytes), ParseError>

  function Take(s: Bytes, n: nat): Parsed<Bytes> {
    if n > |s| then Err(Truncated) else Ok((s[..n], s[n..]))
  }

  /** Replaces one error by another. */
  function MapError<T>(r: Parsed<T>, e: ParseError): Parsed<T> {
    if r.Err? then Err(e) else r
  }

  // ---------------------------------------------------------------- CompactSize integers

  datatype Width = W1 | W3 | W5 | W9

  datatype VarInt = VarInt(width: Width, n: nat)

  predicate ValidVarInt(v: VarInt) {
    match v.width
    case W1 => v.n < 0xfd
    case W3 => v.n < 0x1_0000
    case W5 => v.n < 0x1_0000_0000
    case W9 => v.n < 0x1_0000_0000_0000_0000
  }

  function VarIntBytes(v: VarInt): Bytes
    requires ValidVarInt(v)
  {
    match v.width
    case W1 => [v.n]
    case W3 => [0xfd] + LeBytes(v.n, 2)
    case W5 => [0xfe] + LeBytes(v.n, 4)
    case W9 => [0xff] + LeBytes(v.n, 8)
  }

  /** The shortest width that holds `n`. */
  function CanonicalWidth(n: nat): Width {
    if n < 0xfd then W1 else if n <= 0xffff then W3 else if n <= 0xffff_ffff then W5 else W9
  }

  /** What `write_varint` appends. */
  function CanonicalVarint(n: nat): Bytes
    requires n < U64_LIMIT
  {
    VarIntBytes(VarInt(CanonicalWidth(n), n))
  }

  lemma PowersAtWidths()
    ensures Pow256(2) == 0x1_0000 && Pow256(4) == 0x1_0000_0000 && Pow256(8) == 0x1_0000_0000_0000_0000
  {
    var k := 4;
    assert Pow256(k - 3) == 0x100;
    assert Pow256(k - 2) == 0x1_0000;
    assert Pow256(k - 1) == 0x100_0000;
    assert Pow256(k) == 0x1_0000_0000;
    Pow256Add(k, k);
  }

  function TakeVarint(s: Bytes): (r: Parsed<VarInt>)
    ensures r.Ok? ==> ValidVarInt(r.value.0) && |r.value.1| < |s|
  {
    PowersAtWidths();
    var (head, rest) :- Take(s, 1);
    if head[0] == 0xff then
      var (b, rest) :- Take(rest, 8);
      Ok((VarInt(W9, Le(b)), rest))
    else if head[0] == 0xfe then
      var (b, rest) :- Take(rest, 4);
      Ok((VarInt(W5, Le(b)), rest))
    else if head[0] == 0xfd then
      var (b, rest) :- Take(rest, 2);
      Ok((VarInt(W3, Le(b)), rest))
    else
      Ok((VarInt(W1, head[0]), rest))
  }

  lemma VarintSound(s: Bytes)
    requires TakeVarint(s).Ok?
    ensures var (v, rest) := TakeVarint(s).value; s == VarIntBytes(v) + rest
  {
    var (v, rest) := TakeVarint(s).value;
    var k := match v.width case W1 => 0 case W3 => 2 case W5 => 4 case W9 => 8;
    LeBytesOfLe(s[1..][..k]);
    assert s == [s[0]] + s[1..][..k] + s[1..][k..];
  }

  lemma VarintComplete(v: VarInt, rest: Bytes)
    requires ValidVarInt(v)
    ensures TakeVarint(VarIntBytes(v) + rest) == Ok((v, rest))
  {
    if v.width.W1? {
      assert (VarIntBytes(v) + rest)[1..] == rest;
    } else {
      PowersAtWidths();
      var k := match v.width case W3 => 2 case W5 => 4 case _ => 8;
      LeOfLeBytes(v.n, k);
      TagAndNumber(VarIntBytes(v), LeBytes(v.n, k), rest);
    }
  }

  lemma TagAndNumber(v: Bytes, number: Bytes, rest: Bytes)
    requires v != [] && v == [v[0]] + number
    ensures (v + rest)[..1] == [v[0]]
    ensures (v + rest)[1..] == number + rest
    ensures (number + rest)[..|number|] == number && (number + rest)[|number|..] == rest
  {
  }

  // ---------------------------------------------------------------- repeated elements

  /** `n` elements one after the other. */
  function TakeMany<T>(one: Bytes -> Parsed<T>, s: Bytes, n: nat): Parsed<seq<T>>
    decreases n
  {
    if n == 0 then Ok(([], s))
    else
      var (x, rest) :- one(s);
      var (xs, rest) :- TakeMany(one, rest, n - 1);
      Ok(([x] + xs, rest))
  }

  function Concat<T>(ser: T -> Bytes, xs: seq<T>): Bytes {
    if xs == [] then [] else ser(xs[0]) + Concat(ser, xs[1..])
  }

  /** The parser reads exactly what the serializer writes for valid values. */
  ghost predicate Inverse<T(!new)>(one: Bytes -> Parsed<T>, ser: T -> Bytes, valid: T -> bool) {
    && (forall s :: one(s).Ok? ==> valid(one(s).value.0) && s == ser(one(s).value.0) + one(s).value.1)
    && (forall x, rest {:trigger ser(x) + rest} :: valid(x) ==> one(ser(x) + rest) == Ok((x, rest)))
  }

  lemma {:induction false} ManySound<T(!new)>(one: Bytes -> Parsed<T>, ser: T -> Bytes, valid: T -> bool, s: Bytes,
                                              n: nat)
    requires Inverse(one, ser, valid) && TakeMany(one, s, n).Ok?
    ensures var (xs, rest) := TakeMany(one, s, n).value;
            && |xs| == n && s == Concat(ser, xs) + rest
            && forall i :: 0 <= i < n ==> valid(xs[i])
    decreases n
  {
    if n > 0 {
      var (x, rest) := one(s).value;
      ManySound(one, ser, valid, rest, n - 1);
      var (xs, rest') := TakeMany(one, rest, n - 1).value;
      assert ([x] + xs)[1..] == xs;
    }
  }

  lemma {:induction false} ManyComplete<T(!new)>(one: Bytes -> Parsed<T>, ser: T -> Bytes, valid: T -> bool,
                                                 xs: seq<T>, rest: Bytes)
    requires Inverse(one, ser, valid) && forall i :: 0 <= i < |xs| ==> valid(xs[i])
    ensures TakeMany(one, Concat(ser, xs) + rest, |xs|) == Ok((xs, rest))
  {
    if xs == [] {
      assert Concat(ser, xs) + rest == rest;
    } else {
      ManyComplete(one, ser, valid, xs[1..], rest);
      assert Concat(ser, xs) + rest == ser(xs[0]) + (Concat(ser, xs[1..]) + rest);
      assert [xs[0]] + xs[1..] == xs;
    }
  }

  lemma {:induction false} ConcatSnoc<T>(ser: T -> Bytes, xs: seq<T>, x: T)
    ensures Concat(ser, xs + [x]) == Concat(ser, xs) + ser(x)
  {
    if xs == [] {
      assert [x][1..] == [];
    } else {
      assert (xs + [x])[1..] == xs[1..] + [x];
      ConcatSnoc(ser, xs[1..], x);
    }
  }

  // ---------------------------------------------------------------- transactions

  /** A length-prefixed byte string. */
  datatype Blob = Blob(width: Width, data: Bytes)

  datatype TxIn = TxIn(prevout: Bytes, script: Blob, sequence: Bytes)
  datatype TxOut = TxOut(value: Bytes, script: Blob)

  /** The witness items of one input. */
  datatype Stack = Stack(width: Width, items: seq<Blob>)

  /** The SegWit marker is a zero input count, in whatever width it was sent. */
  datatype Witness = NoWitness | SegWit(marker: Width, stacks: seq<Stack>)

  datatype Tx = Tx(
    version: Bytes,
    inWidth: Width,
    ins: seq<TxIn>,
    outWidth: Width,
    outs: seq<TxOut>,
    wit: Witness,
    locktime: Bytes)

  predicate ValidBlob(b: Blob) { ValidVarInt(VarInt(b.width, |b.data|)) }

  predicate ValidIn(i: TxIn) { |i.prevout| == 36 && ValidBlob(i.script) && |i.sequence| == 4 }

  predicate ValidOut(o: TxOut) { |o.value| == 8 && ValidBlob(o.script) }

  predicate ValidStack(w: Stack) {
    ValidVarInt(VarInt(w.width, |w.items|)) && forall i :: 0 <= i < |w.items| ==> ValidBlob(w.items[i])
  }

  predicate ValidTx(t: Tx) {
    && |t.version| == 4 && |t.locktime| == 4
    && |t.ins| > 0
    && ValidVarInt(VarInt(t.inWidth, |t.ins|)) && (forall i :: 0 <= i < |t.ins| ==> ValidIn(t.ins[i]))
    && ValidVarInt(VarInt(t.outWidth, |t.outs|)) && (forall i :: 0 <= i < |t.outs| ==> ValidOut(t.outs[i]))
    && (t.wit.SegWit? ==>
          |t.wit.stacks| == |t.ins| && forall i :: 0 <= i < |t.ins| ==> ValidStack(t.wit.stacks[i]))
  }

  // Serialization. Values that are not valid have no serialization.

  function SerBlob(b: Blob): Bytes {
    if ValidBlob(b) then VarIntBytes(VarInt(b.width, |b.data|)) + b.data else []
  }

  function SerIn(i: TxIn): Bytes { i.prevout + SerBlob(i.script) + i.sequence }

  function SerOut(o: TxOut): Bytes { o.value + SerBlob(o.script) }

  function SerStack(w: Stack): Bytes {
    if ValidStack(w) then VarIntBytes(VarInt(w.width, |w.items|)) + Concat(SerBlob, w.items) else []
  }

  /** The input count, preceded by marker and flag in the SegWit form. */
  function CountBytes(marker: Option<Width>, n: VarInt): Bytes
    requires ValidVarInt(n)
  {
    (if marker.Some? then VarIntBytes(VarInt(marker.value, 0)) + [0x01] else []) + VarIntBytes(n)
  }

  function MarkerOf(wit: Witness): Option<Width> {
    if wit.SegWit? then Some(wit.marker) else None
  }

  function WitnessBytes(wit: Witness): Bytes {
    if wit.SegWit? then Concat(SerStack, wit.stacks) else []
  }

  function SerTx(t: Tx): Bytes
    requires ValidTx(t)
  {
    t.version
    + CountBytes(MarkerOf(t.wit), VarInt(t.inWidth, |t.ins|)) + Concat(SerIn, t.ins)
    + VarIntBytes(VarInt(t.outWidth, |t.outs|)) + Concat(SerOut, t.outs)
    + WitnessBytes(t.wit)
    + t.locktime
  }

  // Parsing, in the order of the source.

  /** A length-prefixed string whose overrun is reported as `overrun`. */
  function TakeBlob(s: Bytes, overrun: ParseError): Parsed<Blob> {
    var (v, rest) :- TakeVarint(s);
    var (data, rest) :- MapError(Take(rest, v.n), overrun);
    Ok((Blob(v.width, data), rest))
  }

  function TakeIn(s: Bytes): Parsed<TxIn> {
    var (prevout, rest) :- Take(s, 36);
    var (script, rest) :- TakeBlob(rest, BadCoinbase(ScriptSigOverruns));
    var (sequence, rest) :- Take(rest, 4);
    Ok((TxIn(prevout, script, sequence), rest))
  }

  function TakeOut(s: Bytes): Parsed<TxOut> {
    var (value, rest) :- Take(s, 8);
    var (script, rest) :- TakeBlob(rest, BadCoinbase(ScriptPubKeyOverruns));
    Ok((TxOut(value, script), rest))
  }

  function TakeItem(s: Bytes): Parsed<Blob> { TakeBlob(s, Truncated) }

  function TakeStack(s: Bytes): Parsed<Stack> {
    var (v, rest) :- TakeVarint(s);
    var (items, rest) :- TakeMany(TakeItem, rest, v.n);
    Ok((Stack(v.width, items), rest))
  }

  /** The input count, preceded by marker and flag in the SegWit form. */
  function TakeCount(s: Bytes): Parsed<(Option<Width>, VarInt)> {
    var (v, rest) :- TakeVarint(s);
    if v.n != 0 then Ok(((None, v), rest))
    else
      var (flag, rest) :- Take(rest, 1);
      if flag != [0x01] then Err(BadCoinbase(NoSegwitFlag))
      else
        var (n, rest) :- TakeVarint(rest);
        if n.n == 0 then Err(BadCoinbase(ZeroInputs)) else Ok(((Some(v.width), n), rest))
  }

  function TakeWitness(s: Bytes, marker: Option<Width>, n: nat): Parsed<Witness> {
    match marker
    case None => Ok((NoWitness, s))
    case Some(w) =>
      var (stacks, rest) :- TakeMany(TakeStack, s, n);
      Ok((SegWit(w, stacks), rest))
  }

  function TakeTx(s: Bytes): Parsed<Tx> {
    var (version, rest) :- Take(s, 4);
    var (count, rest) :- TakeCount(rest);
    var (ins, rest) :- TakeMany(TakeIn, rest, count.1.n);
    var (nout, rest) :- TakeVarint(rest);
    var (outs, rest) :- TakeMany(TakeOut, rest, nout.n);
    var (wit, rest) :- TakeWitness(rest, count.0, count.1.n);
    var (locktime, rest) :- Take(rest, 4);
    Ok((Tx(version, count.1.width, ins, nout.width, outs, wit, locktime), rest))
  }

  // ---------------------------------------------------------------- parsing inverts serialization

  lemma TakeConcat(a: Bytes, rest: Bytes)
    ensures Take(a + rest, |a|) == Ok((a, rest))
  {
    assert (a + rest)[..|a|] == a && (a + rest)[|a|..] == rest;
  }

  lemma TakeSplits(s: Bytes, n: nat)
    requires Take(s, n).Ok?
    ensures var (a, rest) := Take(s, n).value; |a| == n && s == a + rest
  {
  }

  /** Moves one part from the rest to what has been read. */
  lemma Join<T>(read: seq<T>, part: seq<T>, rest: seq<T>)
    ensures read + (part + rest) == (read + part) + rest
  {
  }

  lemma BlobSound(s: Bytes, overrun: ParseError)
    requires TakeBlob(s, overrun).Ok?
    ensures var (b, rest) := TakeBlob(s, overrun).value; ValidBlob(b) && s == SerBlob(b) + rest
  {
    VarintSound(s);
  }

  lemma BlobComplete(b: Blob, rest: Bytes, overrun: ParseError)
    requires ValidBlob(b)
    ensures TakeBlob(SerBlob(b) + rest, overrun) == Ok((b, rest))
  {
    var v := VarInt(b.width, |b.data|);
    VarintComplete(v, b.data + rest);
    TakeConcat(b.data, rest);
    assert SerBlob(b) + rest == VarIntBytes(v) + (b.data + rest);
  }

  lemma ItemInverse()
    ensures Inverse(TakeItem, SerBlob, ValidBlob)
  {
    forall s | TakeItem(s).Ok?
      ensures ValidBlob(TakeItem(s).value.0) && s == SerBlob(TakeItem(s).value.0) + TakeItem(s).value.1
    {
      BlobSound(s, Truncated);
    }
    forall b, rest | ValidBlob(b)
      ensures TakeItem(SerBlob(b) + rest) == Ok((b, rest))
    {
      BlobComplete(b, rest, Truncated);
    }
  }

  lemma InSound(s: Bytes)
    requires TakeIn(s).Ok?
    ensures var (x, rest) := TakeIn(s).value; ValidIn(x) && s == SerIn(x) + rest
  {
    hide SerBlob, TakeBlob, ValidBlob;
    var overrun := BadCoinbase(ScriptSigOverruns);
    var (a, s1) := Take(s, 36).value;
    var (b, s2) := TakeBlob(s1, overrun).value;
    var (c, s3) := Take(s2, 4).value;
    TakeSplits(s, 36);
    BlobSound(s1, overrun);
    TakeSplits(s2, 4);
    hide Take;
    Join(a, SerBlob(b), s2);
    Join(a + SerBlob(b), c, s3);
  }

  lemma InComplete(x: TxIn, rest: Bytes)
    requires ValidIn(x)
    ensures TakeIn(SerIn(x) + rest) == Ok((x, rest))
  {
    hide SerBlob, TakeBlob, ValidBlob, Take;
    var tail := x.sequence + rest;
    TakeConcat(x.prevout, SerBlob(x.script) + tail);
    BlobComplete(x.script, tail, BadCoinbase(ScriptSigOverruns));
    TakeConcat(x.sequence, rest);
    Join(x.prevout, SerBlob(x.script), tail);
    Join(x.prevout + SerBlob(x.script), x.sequence, rest);
  }

  lemma InInverse()
    ensures Inverse(TakeIn, SerIn, ValidIn)
  {
    forall s | TakeIn(s).Ok?
      ensures ValidIn(TakeIn(s).value.0) && s == SerIn(TakeIn(s).value.0) + TakeIn(s).value.1
    {
      InSound(s);
    }
    forall x, rest | ValidIn(x)
      ensures TakeIn(SerIn(x) + rest) == Ok((x, rest))
    {
      InComplete(x, rest);
    }
  }

  lemma OutSound(s: Bytes)
    requires TakeOut(s).Ok?
    ensures var (x, rest) := TakeOut(s).value; ValidOut(x) && s == SerOut(x) + rest
  {
    hide SerBlob, TakeBlob, ValidBlob;
    var overrun := BadCoinbase(ScriptPubKeyOverruns);
    var (a, s1) := Take(s, 8).value;
    TakeSplits(s, 8);
    BlobSound(s1, overrun);
    hide Take;
    var (b, s2) := TakeBlob(s1, overrun).value;
    Join(a, SerBlob(b), s2);
  }

  lemma OutComplete(x: TxOut, rest: Bytes)
    requires ValidOut(x)
    ensures TakeOut(SerOut(x) + rest) == Ok((x, rest))
  {
    hide SerBlob, TakeBlob, ValidBlob, Take;
    TakeConcat(x.value, SerBlob(x.script) + rest);
    BlobComplete(x.script, rest, BadCoinbase(ScriptPubKeyOverruns));
    Join(x.value, SerBlob(x.script), rest);
  }

  lemma OutInverse()
    ensures Inverse(TakeOut, SerOut, ValidOut)
  {
    forall s | TakeOut(s).Ok?
      ensures ValidOut(TakeOut(s).value.0) && s == SerOut(TakeOut(s).value.0) + TakeOut(s).value.1
    {
      OutSound(s);
    }
    forall x, rest | ValidOut(x)
      ensures TakeOut(SerOut(x) + rest) == Ok((x, rest))
    {
      OutComplete(x, rest);
    }
  }

  lemma StackSound(s: Bytes)
    requires TakeStack(s).Ok?
    ensures var (x, rest) := TakeStack(s).value; ValidStack(x) && s == SerStack(x) + rest
  {
    VarintSound(s);
    ItemInverse();
    var (v, rest) := TakeVarint(s).value;
    ManySound(TakeItem, SerBlob, ValidBlob, rest, v.n);
    hide TakeVarint, VarIntBytes, SerBlob, Concat, TakeMany;
    var (items, rest') := TakeMany(TakeItem, rest, v.n).value;
    Join(VarIntBytes(v), Concat(SerBlob, items), rest');
  }

  lemma StackComplete(x: Stack, rest: Bytes)
    requires ValidStack(x)
    ensures TakeStack(SerStack(x) + rest) == Ok((x, rest))
  {
    var v := VarInt(x.width, |x.items|);
    hide TakeVarint, VarIntBytes, SerBlob, Concat, TakeMany;
    var tail := Concat(SerBlob, x.items) + rest;
    VarintComplete(v, tail);
    ItemInverse();
    ManyComplete(TakeItem, SerBlob, ValidBlob, x.items, rest);
    Join(VarIntBytes(v), Concat(SerBlob, x.items), rest);
  }

  lemma StackInverse()
    ensures Inverse(TakeStack, SerStack, ValidStack)
  {
    forall s | TakeStack(s).Ok?
      ensures ValidStack(TakeStack(s).value.0) && s == SerStack(TakeStack(s).value.0) + TakeStack(s).value.1
    {
      StackSound(s);
    }
    forall x, rest | ValidStack(x)
      ensures TakeStack(SerStack(x) + rest) == Ok((x, rest))
    {
      StackComplete(x, rest);
    }
  }

  lemma CountSound(s: Bytes)
    requires TakeCount(s).Ok?
    ensures var ((marker, n), rest) := TakeCount(s).value;
            ValidVarInt(n) && n.n > 0 && s == CountBytes(marker, n) + rest
  {
    var (v, s1) := TakeVarint(s).value;
    VarintSound(s);
    if v.n == 0 {
      VarintSound(s1[1..]);
      var (n, s2) := TakeVarint(s1[1..]).value;
      hide VarIntBytes, TakeVarint;
      TakeSplits(s1, 1);
      Join(VarIntBytes(v), [0x01], s1[1..]);
      Join(VarIntBytes(v) + [0x01], VarIntBytes(n), s2);
    }
  }

  lemma CountComplete(marker: Option<Width>, n: VarInt, rest: Bytes)
    requires ValidVarInt(n) && n.n > 0
    ensures TakeCount(CountBytes(marker, n) + rest) == Ok(((marker, n), rest))
  {
    hide VarIntBytes, TakeVarint, Take;
    VarintComplete(n, rest);
    if marker.Some? {
      var v := VarInt(marker.value, 0);
      VarintComplete(v, [0x01] + (VarIntBytes(n) + rest));
      TakeConcat([0x01], VarIntBytes(n) + rest);
      Join(VarIntBytes(v), [0x01], VarIntBytes(n) + rest);
      Join(VarIntBytes(v) + [0x01], VarIntBytes(n), rest);
    } else {
      assert [] + VarIntBytes(n) == VarIntBytes(n);
    }
  }

  predicate ValidWitness(wit: Witness, n: nat) {
    wit.SegWit? ==> |wit.stacks| == n && forall i :: 0 <= i < n ==> ValidStack(wit.stacks[i])
  }

  lemma WitnessSound(s: Bytes, marker: Option<Width>, n: nat)
    requires TakeWitness(s, marker, n).Ok?
    ensures var (wit, rest) := TakeWitness(s, marker, n).value;
            MarkerOf(wit) == marker && ValidWitness(wit, n) && s == WitnessBytes(wit) + rest
  {
    if marker.Some? {
      StackInverse();
      ManySound(TakeStack, SerStack, ValidStack, s, n);
    }
  }

  lemma WitnessComplete(wit: Witness, n: nat, rest: Bytes)
    requires ValidWitness(wit, n)
    ensures TakeWitness(WitnessBytes(wit) + rest, MarkerOf(wit), n) == Ok((wit, rest))
  {
    if wit.SegWit? {
      StackInverse();
      ManyComplete(TakeStack, SerStack, ValidStack, wit.stacks, rest);
    } else {
      assert [] + rest == rest;
    }
  }

  lemma ManyInsSound(s: Bytes, n: nat)
    requires TakeMany(TakeIn, s, n).Ok?
    ensures var (xs, rest) := TakeMany(TakeIn, s, n).value;
            |xs| == n && s == Concat(SerIn, xs) + rest && forall i :: 0 <= i < n ==> ValidIn(xs[i])
  {
    InInverse();
    ManySound(TakeIn, SerIn, ValidIn, s, n);
  }

  lemma ManyOutsSound(s: Bytes, n: nat)
    requires TakeMany(TakeOut, s, n).Ok?
    ensures var (xs, rest) := TakeMany(TakeOut, s, n).value;
            |xs| == n && s == Concat(SerOut, xs) + rest && forall i :: 0 <= i < n ==> ValidOut(xs[i])
  {
    OutInverse();
    ManySound(TakeOut, SerOut, ValidOut, s, n);
  }

  /** What the parser accepts is the serialization of what it returns, followed by what it leaves. */
  lemma TxSound(s: Bytes)
    requires TakeTx(s).Ok?
    ensures var (t, rest) := TakeTx(s).value; ValidTx(t) && s == SerTx(t) + rest
  {
    hide TakeCount, TakeVarint, TakeMany, TakeWitness, Concat, CountBytes, VarIntBytes, WitnessBytes, TakeIn, TakeOut,
         ValidIn, ValidOut, ValidStack;
    var (version, s1) := Take(s, 4).value;
    var (count, s2) := TakeCount(s1).value;
    var (ins, s3) := TakeMany(TakeIn, s2, count.1.n).value;
    var (nout, s4) := TakeVarint(s3).value;
    var (outs, s5) := TakeMany(TakeOut, s4, nout.n).value;
    var (wit, s6) := TakeWitness(s5, count.0, count.1.n).value;
    var (locktime, s7) := Take(s6, 4).value;
    TakeSplits(s, 4);
    CountSound(s1);
    ManyInsSound(s2, count.1.n);
    VarintSound(s3);
    ManyOutsSound(s4, nout.n);
    WitnessSound(s5, count.0, count.1.n);
    TakeSplits(s6, 4);
    hide Take;
    Join(version, CountBytes(count.0, count.1), s2);
    var r2 := version + CountBytes(count.0, count.1);
    Join(r2, Concat(SerIn, ins), s3);
    var r3 := r2 + Concat(SerIn, ins);
    Join(r3, VarIntBytes(nout), s4);
    var r4 := r3 + VarIntBytes(nout);
    Join(r4, Concat(SerOut, outs), s5);
    var r5 := r4 + Concat(SerOut, outs);
    Join(r5, WitnessBytes(wit), s6);
    Join(r5 + WitnessBytes(wit), locktime, s7);
  }

  /** Every valid transaction, in every encoding, is read back whole and nothing after it is touched. */
  lemma TxComplete(t: Tx, rest: Bytes)
    requires ValidTx(t)
    ensures TakeTx(SerTx(t) + rest) == Ok((t, rest))
  {
    hide TakeCount, TakeVarint, TakeMany, TakeWitness, Concat, CountBytes, VarIntBytes, WitnessBytes, TakeIn, TakeOut,
         ValidIn, ValidOut, ValidStack, Take;
    var n, nout := VarInt(t.inWidth, |t.ins|), VarInt(t.outWidth, |t.outs|);
    var count := CountBytes(MarkerOf(t.wit), n);
    var ins, outs := Concat(SerIn, t.ins), Concat(SerOut, t.outs);
    var s6 := t.locktime + rest;
    var s5 := WitnessBytes(t.wit) + s6;
    var s4 := outs + s5;
    var s3 := VarIntBytes(nout) + s4;
    var s2 := ins + s3;
    var s1 := count + s2;
    Join(t.version, count, s2);
    var r2 := t.version + count;
    Join(r2, ins, s3);
    var r3 := r2 + ins;
    Join(r3, VarIntBytes(nout), s4);
    var r4 := r3 + VarIntBytes(nout);
    Join(r4, outs, s5);
    var r5 := r4 + outs;
    Join(r5, WitnessBytes(t.wit), s6);
    Join(r5 + WitnessBytes(t.wit), t.locktime, rest);
    assert SerTx(t) + rest == t.version + s1;
    TakeConcat(t.version, s1);
    CountComplete(MarkerOf(t.wit), n, s2);
    InInverse();
    ManyComplete(TakeIn, SerIn, ValidIn, t.ins, s3);
    VarintComplete(nout, s4);
    OutInverse();
    ManyComplete(TakeOut, SerOut, ValidOut, t.outs, s5);
    WitnessComplete(t.wit, |t.ins|, s6);
    TakeConcat(t.locktime, rest);
  }

  /** A byte string starts with at most one transaction. */
  lemma TxUnique(t1: Tx, rest1: Bytes, t2: Tx, rest2: Bytes)
    requires ValidTx(t1) && ValidTx(t2) && SerTx(t1) + rest1 == SerTx(t2) + rest2
    ensures t1 == t2 && rest1 == rest2
  {
    hide SerTx, TakeTx, ValidTx;
    TxComplete(t1, rest1);
    TxComplete(t2, rest2);
  }

  // ---------------------------------------------------------------- the witness-free form

  function CanonicalBlob(b: Blob): Blob { Blob(CanonicalWidth(|b.data|), b.data) }
  function CanonicalIn(i: TxIn): TxIn { i.(script := CanonicalBlob(i.script)) }
  function CanonicalOut(o: TxOut): TxOut { o.(script := CanonicalBlob(o.script)) }

  /** The same transaction without witness and with every length in its shortest form. */
  function Canonical(t: Tx): Tx {
    t.(inWidth := CanonicalWidth(|t.ins|),
       ins := seq(|t.ins|, i requires 0 <= i < |t.ins| => CanonicalIn(t.ins[i])),
       outWidth := CanonicalWidth(|t.outs|),
       outs := seq(|t.outs|, i requires 0 <= i < |t.outs| => CanonicalOut(t.outs[i])),
       wit := NoWitness)
  }

  function LegacyIn(i: TxIn): Bytes { SerIn(CanonicalIn(i)) }
  function LegacyOut(o: TxOut): Bytes { SerOut(CanonicalOut(o)) }

  /** The bytes `take_tx` rebuilds while it walks the transaction. */
  function LegacyBytes(t: Tx): Bytes
    requires ValidTx(t)
  {
    t.version + CanonicalVarint(|t.ins|) + Concat(LegacyIn, t.ins)
    + CanonicalVarint(|t.outs|) + Concat(LegacyOut, t.outs) + t.locktime
  }

  lemma {:induction false} ConcatMapped<T, U>(f: T -> U, ser: U -> Bytes, ser': T -> Bytes, xs: seq<T>, ys: seq<U>)
    requires |xs| == |ys| && forall i :: 0 <= i < |xs| ==> ys[i] == f(xs[i])
    requires forall i :: 0 <= i < |xs| ==> ser'(xs[i]) == ser(f(xs[i]))
    ensures Concat(ser', xs) == Concat(ser, ys)
  {
    if xs != [] {
      ConcatMapped(f, ser, ser', xs[1..], ys[1..]);
    }
  }

  lemma CanonicalValid(t: Tx)
    requires ValidTx(t)
    ensures ValidTx(Canonical(t)) && Canonical(Canonical(t)) == Canonical(t)
  {
    var c := Canonical(t);
    assert Canonical(c).ins == c.ins && Canonical(c).outs == c.outs;
  }

  /** The rebuilt bytes are the serialization of the canonical witness-free transaction. */
  lemma LegacyIsCanonical(t: Tx)
    requires ValidTx(t)
    ensures ValidTx(Canonical(t)) && LegacyBytes(t) == SerTx(Canonical(t))
  {
    CanonicalValid(t);
    var c := Canonical(t);
    hide ValidTx, SerIn, SerOut, VarIntBytes;
    ConcatMapped(CanonicalIn, SerIn, LegacyIn, t.ins, c.ins);
    ConcatMapped(CanonicalOut, SerOut, LegacyOut, t.outs, c.outs);
    hide Concat;
    assert CountBytes(None, VarInt(c.inWidth, |c.ins|)) == CanonicalVarint(|t.ins|);
    assert WitnessBytes(NoWitness) == [];
  }

  /** What `take_tx` returns: the witness-free bytes of the transaction it read. */
  function StripTx(s: Bytes): Parsed<Bytes> {
    var (t, rest) :- TakeTx(s);
    TxSound(s);
    Ok((LegacyBytes(t), rest))
  }

  /** Stripping the witness: with or without any witness, and whatever the widths, the same canonical
      legacy bytes come out, and the reader stops exactly past the locktime. */
  lemma StripIgnoresWitness(t: Tx, t': Tx, rest: Bytes)
    requires ValidTx(t) && ValidTx(t') && Canonical(t) == Canonical(t')
    ensures StripTx(SerTx(t) + rest) == StripTx(SerTx(t') + rest) == Ok((LegacyBytes(t), rest))
  {
    hide SerTx, TakeTx, ValidTx, Canonical, LegacyBytes;
    TxComplete(t, rest);
    TxComplete(t', rest);
    LegacyIsCanonical(t);
    LegacyIsCanonical(t');
  }

  /** Adding any witness to a valid transaction keeps it valid, keeps its canonical form and keeps the
      bytes it is stripped to. */
  lemma WitnessIsFree(t: Tx, marker: Width, stacks: seq<Stack>, rest: Bytes)
    requires ValidTx(t) && |stacks| == |t.ins| && forall i :: 0 <= i < |stacks| ==> ValidStack(stacks[i])
    ensures var (segwit, legacy) := (t.(wit := SegWit(marker, stacks)), t.(wit := NoWitness));
            && ValidTx(segwit) && ValidTx(legacy)
            && Canonical(segwit) == Canonical(legacy) == Canonical(t)
            && StripTx(SerTx(segwit) + rest) == StripTx(SerTx(legacy) + rest) == Ok((LegacyBytes(t), rest))
  {
    var (segwit, legacy) := (t.(wit := SegWit(marker, stacks)), t.(wit := NoWitness));
    assert ValidTx(segwit) && ValidTx(legacy) && Canonical(segwit) == Canonical(legacy) == Canonical(t);
    hide SerTx, ValidTx, Canonical, LegacyBytes, StripTx;
    StripIgnoresWitness(t, segwit, rest);
    StripIgnoresWitness(t, legacy, rest);
  }

  /** Stripping its own output changes nothing. */
  lemma StripIdempotent(s: Bytes, rest: Bytes)
    requires StripTx(s).Ok?
    ensures StripTx(StripTx(s).value.0 + rest) == Ok((StripTx(s).value.0, rest))
  {
    var (t, _) := TakeTx(s).value;
    TxSound(s);
    CanonicalValid(t);
    LegacyIsCanonical(t);
    LegacyIsCanonical(Canonical(t));
    TxComplete(Canonical(t), rest);
  }
}
