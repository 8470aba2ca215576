/** The cursor that walks a payload. Each method is proved against the grammar of Wire and Payload,
    applied to the bytes the cursor has not read yet. */
module Cursors {
  import opened Bytes
  import opened Commitment
  import opened Wire
  import opened Payload

  /** A method's outcome against the grammar: same value, same bytes left, or same error. */
  ghost predicate Matches<T(!new)>(spec: Parsed<T>, r: Result<T, ParseError>, rest: Bytes) {
    match spec
    case Ok((x, left)) => r == Ok(x) && rest == left
    case Err(e) => r == Err(e)
  }

  /** The same, for a method that appends what it read, re-encoded by `out`, to a buffer. */
  ghost predicate Appends<T(!new)>(spec: Parsed<T>, out: T -> Bytes, buf: Bytes, r: Result<Bytes, ParseError>,
                                   rest: Bytes) {
    match spec
    case Ok((x, left)) => r == Ok(buf + out(x)) && rest == left
    case Err(e) => r == Err(e)
  }

  /** `write_varint`: appends the shortest encoding. */
  method WriteVarint(buf: Bytes, n: nat) returns (out: Bytes)
    requires n < U64_LIMIT
    ensures out == buf + CanonicalVarint(n)
  {
    if n < 0xfd {
      out := buf + [n];
    } else if n <= 0xffff {
      out := buf + [0xfd];
      out := out + LeBytes(n, 2);
    } else if n <= 0xffff_ffff {
      out := buf + [0xfe];
      out := out + LeBytes(n, 4);
    } else {
      out := buf + [0xff];
      out := out + LeBytes(n, 8);
    }
  }

  // Progress of a loop over repeated elements.

  ghost function Prepend<T(!new)>(done: seq<T>, r: Parsed<seq<T>>): Parsed<seq<T>> {
    match r
    case Ok((xs, rest)) => Ok((done + xs, rest))
    case Err(e) => Err(e)
  }

  lemma PrependNothing<T(!new)>(r: Parsed<seq<T>>)
    ensures Prepend([], r) == r
  {
    if r.Ok? {
      assert [] + r.value.0 == r.value.0;
    }
  }

  lemma ManyStep<T(!new)>(one: Bytes -> Parsed<T>, s: Bytes, n: nat, done: seq<T>)
    requires n > 0
    ensures match one(s)
            case Ok((x, rest)) => Prepend(done, TakeMany(one, s, n)) == Prepend(done + [x], TakeMany(one, rest, n - 1))
            case Err(e) => Prepend(done, TakeMany(one, s, n)) == Err(e)
  {
    if one(s).Ok? {
      var (x, rest) := one(s).value;
      var r := TakeMany(one, rest, n - 1);
      if r.Ok? {
        Wire.Join(done, [x], r.value.0);
      }
    }
  }

  lemma ManyDone<T(!new)>(one: Bytes -> Parsed<T>, s: Bytes, done: seq<T>)
    ensures Prepend(done, TakeMany(one, s, 0)) == Ok((done, s))
  {
    assert done + [] == done;
  }

  class Cursor {
    const b: Bytes
    var p: nat
    /** Loop rounds started so far, over all the loops of the reader. */
    ghost var rounds: nat

    ghost predicate Valid()
      reads this
    {
      p <= |b|
    }

    ghost function Rest(): Bytes
      requires Valid()
      reads this
    {
      b[p..]
    }

    constructor (b: Bytes, p: nat)
      requires p <= |b|
      ensures Valid() && this.b == b && this.p == p && rounds == 0 && Rest() == b[p..]
    {
      this.b := b;
      this.p := p;
      rounds := 0;
    }

    method Take(n: nat) returns (r: Result<Bytes, ParseError>)
      requires Valid()
      modifies this
      ensures Valid() && rounds == old(rounds)
      ensures Matches(Wire.Take(old(Rest()), n), r, Rest())
      ensures p == if r.Ok? then old(p) + n else old(p)
    {
      var end := p + n;
      if end > |b| {
        return Err(Truncated);
      }
      var s := b[p..end];
      assert b[p..][..n] == s && b[p..][n..] == b[end..];
      p := end;
      return Ok(s);
    }

    method Varint() returns (r: Result<nat, ParseError>)
      requires Valid()
      modifies this
      ensures Valid() && rounds == old(rounds) && p >= old(p) && (r.Ok? ==> p > old(p))
      ensures match TakeVarint(old(Rest()))
              case Ok((v, left)) => r == Ok(v.n) && Rest() == left && v.n < U64_LIMIT
              case Err(e) => r == Err(e)
    {
      var head :- Take(1);
      if head[0] == 0xff {
        var x :- Take(8);
        return Ok(Le(x));
      } else if head[0] == 0xfe {
        var x :- Take(4);
        return Ok(Le(x));
      } else if head[0] == 0xfd {
        var x :- Take(2);
        return Ok(Le(x));
      }
      return Ok(head[0]);
    }

    /** Reads a length-prefixed script and appends it with the shortest length. */
    method TakeScript(buf: Bytes, overrun: ParseError) returns (r: Result<Bytes, ParseError>)
      requires Valid()
      modifies this
      ensures Valid() && rounds == old(rounds) && p >= old(p) && (r.Ok? ==> p > old(p))
      ensures Appends(TakeBlob(old(Rest()), overrun), x => SerBlob(CanonicalBlob(x)), buf, r, Rest())
    {
      var n :- Varint();
      var legacy := WriteVarint(buf, n);
      var script := Take(n);
      if script.Err? {
        return Err(overrun);
      }
      Join(buf, CanonicalVarint(n), script.value);
      return Ok(legacy + script.value);
    }

    /** One round of the input loop. */
    method TakeInput(buf: Bytes) returns (r: Result<Bytes, ParseError>)
      requires Valid()
      modifies this
      ensures Valid() && rounds == old(rounds) && p >= old(p) && (r.Ok? ==> p > old(p))
      ensures Appends(TakeIn(old(Rest())), LegacyIn, buf, r, Rest())
    {
      hide SerBlob, TakeBlob;
      var prevout :- Take(36);
      var legacy := buf + prevout;
      ghost var blob := TakeBlob(Rest(), BadCoinbase(ScriptSigOverruns));
      legacy :- TakeScript(legacy, BadCoinbase(ScriptSigOverruns));
      var sequence :- Take(4);
      ghost var script := SerBlob(CanonicalBlob(blob.value.0));
      Join(buf, prevout, script);
      Join(buf, prevout + script, sequence);
      return Ok(legacy + sequence);
    }

    /** One round of the output loop. */
    method TakeOutput(buf: Bytes) returns (r: Result<Bytes, ParseError>)
      requires Valid()
      modifies this
      ensures Valid() && rounds == old(rounds) && p >= old(p) && (r.Ok? ==> p > old(p))
      ensures Appends(TakeOut(old(Rest())), LegacyOut, buf, r, Rest())
    {
      hide SerBlob, TakeBlob;
      var value :- Take(8);
      var legacy := buf + value;
      ghost var blob := TakeBlob(Rest(), BadCoinbase(ScriptPubKeyOverruns));
      legacy :- TakeScript(legacy, BadCoinbase(ScriptPubKeyOverruns));
      Join(buf, value, SerBlob(CanonicalBlob(blob.value.0)));
      return Ok(legacy);
    }

    /** The input loop. The count is whatever the sender claims; the rounds are bounded by the bytes. */
    method TakeInputs(nin: nat, buf: Bytes) returns (r: Result<Bytes, ParseError>)
      requires Valid()
      modifies this
      ensures Valid() && p >= old(p)
      ensures rounds - old(rounds) <= p - old(p) + (if r.Ok? then 0 else 1)
      ensures Appends(TakeMany(TakeIn, old(Rest()), nin), xs => Concat(LegacyIn, xs), buf, r, Rest())
    {
      hide TakeIn, LegacyIn;
      var legacy := buf;
      ghost var done: seq<TxIn> := [];
      ghost var whole := TakeMany(TakeIn, Rest(), nin);
      PrependNothing(whole);
      assert buf == buf + Concat(LegacyIn, done);
      var i := 0;
      while i < nin
        invariant 0 <= i <= nin && Valid() && p >= old(p)
        invariant rounds - old(rounds) <= p - old(p)
        invariant whole == Prepend(done, TakeMany(TakeIn, Rest(), nin - i))
        invariant legacy == buf + Concat(LegacyIn, done)
      {
        rounds := rounds + 1;
        ghost var here := Rest();
        ManyStep(TakeIn, here, nin - i, done);
        var more := TakeInput(legacy);
        if more.Err? {
          return more;
        }
        ghost var x := TakeIn(here).value.0;
        ConcatSnoc(LegacyIn, done, x);
        Join(buf, Concat(LegacyIn, done), LegacyIn(x));
        legacy, done := more.value, done + [x];
        i := i + 1;
      }
      ManyDone(TakeIn, Rest(), done);
      return Ok(legacy);
    }

    /** The output loop. */
    method TakeOutputs(nout: nat, buf: Bytes) returns (r: Result<Bytes, ParseError>)
      requires Valid()
      modifies this
      ensures Valid() && p >= old(p)
      ensures rounds - old(rounds) <= p - old(p) + (if r.Ok? then 0 else 1)
      ensures Appends(TakeMany(TakeOut, old(Rest()), nout), xs => Concat(LegacyOut, xs), buf, r, Rest())
    {
      hide TakeOut, LegacyOut;
      var legacy := buf;
      ghost var done: seq<TxOut> := [];
      ghost var whole := TakeMany(TakeOut, Rest(), nout);
      PrependNothing(whole);
      assert buf == buf + Concat(LegacyOut, done);
      var i := 0;
      while i < nout
        invariant 0 <= i <= nout && Valid() && p >= old(p)
        invariant rounds - old(rounds) <= p - old(p)
        invariant whole == Prepend(done, TakeMany(TakeOut, Rest(), nout - i))
        invariant legacy == buf + Concat(LegacyOut, done)
      {
        rounds := rounds + 1;
        ghost var here := Rest();
        ManyStep(TakeOut, here, nout - i, done);
        var more := TakeOutput(legacy);
        if more.Err? {
          return more;
        }
        ghost var x := TakeOut(here).value.0;
        ConcatSnoc(LegacyOut, done, x);
        Join(buf, Concat(LegacyOut, done), LegacyOut(x));
        legacy, done := more.value, done + [x];
        i := i + 1;
      }
      ManyDone(TakeOut, Rest(), done);
      return Ok(legacy);
    }

    /** One witness item: read and dropped. */
    method SkipItem() returns (r: Result<(), ParseError>)
      requires Valid()
      modifies this
      ensures Valid() && rounds == old(rounds) && p >= old(p) && (r.Ok? ==> p > old(p))
      ensures match TakeItem(old(Rest()))
              case Ok((_, left)) => r.Ok? && Rest() == left
              case Err(e) => r == Err(e)
    {
      var n :- Varint();
      var data :- Take(n);
      return Ok(());
    }

    /** The witness items of one input. */
    method SkipStack() returns (r: Result<(), ParseError>)
      requires Valid()
      modifies this
      ensures Valid() && p >= old(p)
      ensures rounds - old(rounds) + (if r.Ok? then 1 else 0) <= p - old(p)
      ensures match TakeStack(old(Rest()))
              case Ok((_, left)) => r.Ok? && Rest() == left
              case Err(e) => r == Err(e)
    {
      hide TakeItem, TakeVarint, Le, LeBytes;
      var nitems :- Varint();
      ghost var done: seq<Blob> := [];
      ghost var whole := TakeMany(TakeItem, Rest(), nitems);
      PrependNothing(whole);
      var i := 0;
      while i < nitems
        invariant 0 <= i <= nitems && Valid() && p > old(p)
        invariant rounds - old(rounds) + 1 <= p - old(p)
        invariant whole == Prepend(done, TakeMany(TakeItem, Rest(), nitems - i))
      {
        rounds := rounds + 1;
        ghost var here := Rest();
        ManyStep(TakeItem, here, nitems - i, done);
        var _ :- SkipItem();
        done := done + [TakeItem(here).value.0];
        i := i + 1;
      }
      ManyDone(TakeItem, Rest(), done);
      return Ok(());
    }

    /** The witness of all inputs: consumed but dropped. */
    method SkipWitness(nin: nat) returns (r: Result<(), ParseError>)
      requires Valid()
      modifies this
      ensures Valid() && p >= old(p)
      ensures rounds - old(rounds) <= p - old(p) + (if r.Ok? then 0 else 1)
      ensures match TakeMany(TakeStack, old(Rest()), nin)
              case Ok((_, left)) => r.Ok? && Rest() == left
              case Err(e) => r == Err(e)
    {
      hide TakeStack;
      ghost var done: seq<Stack> := [];
      ghost var whole := TakeMany(TakeStack, Rest(), nin);
      PrependNothing(whole);
      var i := 0;
      while i < nin
        invariant 0 <= i <= nin && Valid() && p >= old(p)
        invariant rounds - old(rounds) <= p - old(p)
        invariant whole == Prepend(done, TakeMany(TakeStack, Rest(), nin - i))
      {
        rounds := rounds + 1;
        ghost var here := Rest();
        ManyStep(TakeStack, here, nin - i, done);
        var _ :- SkipStack();
        done := done + [TakeStack(here).value.0];
        i := i + 1;
      }
      ManyDone(TakeStack, Rest(), done);
      return Ok(());
    }

    /** Input count, with the SegWit marker and flag when the first count is zero. */
    method Count() returns (r: Result<(bool, nat), ParseError>)
      requires Valid()
      modifies this
      ensures Valid() && rounds == old(rounds) && p >= old(p)
      ensures match TakeCount(old(Rest()))
              case Ok(((marker, n), left)) => r == Ok((marker.Some?, n.n)) && Rest() == left && 0 < n.n < U64_LIMIT
              case Err(e) => r == Err(e)
    {
      hide TakeVarint;
      var nin :- Varint();
      if nin != 0 {
        return Ok((false, nin));
      }
      var flag :- Take(1);
      if flag != [0x01] {
        return Err(BadCoinbase(NoSegwitFlag));
      }
      nin :- Varint();
      if nin == 0 {
        return Err(BadCoinbase(ZeroInputs));
      }
      return Ok((true, nin));
    }

    /** `take_tx`: the witness-free bytes of the transaction under the cursor, and the offset just
        past its locktime. */
    method TakeTx() returns (r: Result<(Bytes, nat), ParseError>)
      requires Valid()
      modifies this
      ensures Valid() && p >= old(p)
      ensures rounds - old(rounds) <= p - old(p) + (if r.Ok? then 0 else 1)
      ensures match StripTx(old(Rest()))
              case Ok((legacy, left)) => r == Ok((legacy, p)) && Rest() == left
              case Err(e) => r == Err(e)
    {
      hide TakeCount, TakeVarint, TakeIn, TakeOut, TakeStack, TakeMany, LegacyIn, LegacyOut, Concat, ValidTx, SerTx,
           SerIn, SerOut, ValidIn, ValidOut, CanonicalVarint;
      ghost var s := Rest();
      var version :- Take(4);
      var count :- Count();
      ghost var s2 := Rest();
      var legacy := WriteVarint(version, count.1);
      legacy :- TakeInputs(count.1, legacy);
      var nout :- Varint();
      ghost var s4 := Rest();
      legacy := WriteVarint(legacy, nout);
      legacy :- TakeOutputs(nout, legacy);
      if count.0 {
        var _ :- SkipWitness(count.1);
      }
      var locktime :- Take(4);
      legacy := legacy + locktime;
      TxSound(s);
      ManyInsSound(s2, count.1);
      ManyOutsSound(s4, nout);
      return Ok((legacy, p));
    }

    method U32() returns (r: Result<u32, ParseError>)
      requires Valid()
      modifies this
      ensures Valid() && rounds == old(rounds) && p >= old(p)
      ensures Matches(TakeU32(old(Rest())), r, Rest())
    {
      var x :- Take(4);
      PowersAtWidths();
      return Ok(Le(x));
    }

    method Hash32() returns (r: Result<Digest, ParseError>)
      requires Valid()
      modifies this
      ensures Valid() && rounds == old(rounds) && p >= old(p) && (r.Ok? ==> p > old(p))
      ensures Matches(TakeHash(old(Rest())), r, Rest())
    {
      var h :- Take(32);
      return Ok(h);
    }

    /** `branch`: a counted list of hashes, refused above the allocation bound. */
    method Branch() returns (r: Result<seq<Digest>, ParseError>)
      requires Valid()
      modifies this
      ensures Valid() && p >= old(p)
      ensures rounds - old(rounds) <= p - old(p) + (if r.Ok? then 0 else 1)
      ensures match TakeBranch(old(Rest()))
              case Ok(((_, branch), left)) => r == Ok(branch) && Rest() == left
              case Err(e) => r == Err(e)
    {
      hide TakeVarint;
      var n :- Varint();
      if n > MAX_BRANCH {
        return Err(BadBranch(n));
      }
      hide TakeHash;
      var out: seq<Digest> := [];
      ghost var whole := TakeMany(TakeHash, Rest(), n);
      PrependNothing(whole);
      var i := 0;
      while i < n
        invariant 0 <= i <= n && Valid() && p >= old(p)
        invariant rounds - old(rounds) <= p - old(p)
        invariant whole == Prepend(out, TakeMany(TakeHash, Rest(), n - i))
      {
        rounds := rounds + 1;
        ManyStep(TakeHash, Rest(), n - i, out);
        var h :- Hash32();
        out := out + [h];
        i := i + 1;
      }
      ManyDone(TakeHash, Rest(), out);
      return Ok(out);
    }
  }

  /** `parse_auxpow`. The work is bounded by the payload's length, whatever counts it claims. */
  method ReadAuxpow(full: Bytes) returns (r: Result<(Bytes, AuxPow), ParseError>, ghost rounds: nat)
    ensures r == ParseAuxpow(full)
    ensures rounds <= |full| + 1
  {
    rounds := 0;
    if |full| < HEADER_LEN {
      return Err(TruncatedHeader(|full|)), 0;
    }
    var base := full[..HEADER_LEN];
    if |full| == HEADER_LEN {
      return Err(NoAuxPow), 0;
    }
    var cur := new Cursor(full, HEADER_LEN);
    var aux := ReadParts(cur);
    rounds := cur.rounds;
    if aux.Err? {
      return Err(aux.error), rounds;
    }
    return Ok((base, aux.value)), rounds;
  }

  /** The parts behind the header, in order. */
  method ReadParts(cur: Cursor) returns (r: Result<AuxPow, ParseError>)
    requires cur.Valid()
    modifies cur
    ensures cur.Valid()
    ensures cur.rounds - old(cur.rounds) <= cur.p - old(cur.p) + 1
    ensures match TakeAux(old(cur.Rest()))
            case Ok((w, _)) => ValidTx(w.tx) && r == Ok(AuxOf(w))
            case Err(e) => r == Err(e)
  {
    hide TakeTx, TakeHash, TakeBranch, TakeU32, SerTx, ValidTx, LegacyBytes;
    ghost var s := cur.Rest();
    var coinbase :- cur.TakeTx();
    TxSound(s);
    var hashBlock :- cur.Hash32();
    var parentBranch :- cur.Branch();
    var parentIndex :- cur.U32();
    var chainBranch :- cur.Branch();
    var chainIndex :- cur.U32();
    var parentHeader := cur.Take(HEADER_LEN);
    if parentHeader.Err? {
      return Err(MissingParentHeader);
    }
    return Ok(AuxPow(coinbase.0, parentBranch, parentIndex, chainBranch, chainIndex, parentHeader.value));
  }
}
