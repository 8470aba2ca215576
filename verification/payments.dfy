/** The two payment readers: an independent walk over the same transaction grammar, proved to compute
    the meaning of the transaction the bytes decode to. */
module Payments {
  import opened Arith
  import opened Bytes
  import opened Wire
  import opened Cursors

  // ---------------------------------------------------------------- what a payment is

  /** `OP_DUP OP_HASH160 <hash> OP_EQUALVERIFY OP_CHECKSIG`. */
  predicate PaysTo(script: Bytes, hash160: Bytes) {
    && |script| == 25
    && script[0] == 0x76 && script[1] == 0xa9 && script[2] == 0x14
    && script[23] == 0x88 && script[24] == 0xac
    && script[3..23] == hash160
  }

  /** `OP_RETURN <20 bytes>`, plain or wrapped once more. */
  function RecipientIn(script: Bytes): Option<Bytes> {
    if |script| == 22 && script[0] == 0x6a && script[1] == 0x14 then Some(script[2..22])
    else if |script| == 24 && script[0] == 0x6a && script[1] == 0x16 && script[2] == 0x6a && script[3] == 0x14
    then Some(script[4..24])
    else None
  }

  /** `OP_RETURN <32 bytes>`. */
  function WithdrawalIdIn(script: Bytes): Option<Bytes> {
    if |script| == 34 && script[0] == 0x6a && script[1] == 0x20 then Some(script[2..34]) else None
  }

  /** The three script shapes exclude each other, so the readers' else-branches skip nothing. */
  lemma ShapesDisjoint(script: Bytes, hash160: Bytes)
    requires PaysTo(script, hash160)
    ensures RecipientIn(script).None? && WithdrawalIdIn(script).None?
  {
  }

  function Sats(o: TxOut): nat { Le(o.value) }

  /** Everything paid to `hash160`. */
  function TotalPaid(outs: seq<TxOut>, hash160: Bytes): nat {
    if outs == [] then 0
    else TotalPaid(outs[..|outs| - 1], hash160)
         + (var o := outs[|outs| - 1]; if PaysTo(o.script.data, hash160) then Sats(o) else 0)
  }

  /** The first non-empty answer of `f` over the outputs, in order. */
  function First<T>(outs: seq<TxOut>, f: TxOut -> Option<T>): Option<T> {
    if outs == [] then None
    else
      var before := First(outs[..|outs| - 1], f);
      if before.Some? then before else f(outs[|outs| - 1])
  }

  function RecipientOf(o: TxOut): Option<Bytes> { RecipientIn(o.script.data) }
  function WithdrawalIdOf(o: TxOut): Option<Bytes> { WithdrawalIdIn(o.script.data) }
  function PayoutTo(hash160: Bytes): TxOut -> Option<nat> {
    (o: TxOut) => if PaysTo(o.script.data, hash160) then Some(Sats(o)) else None
  }

  /** A generation input: all-zero txid, output index 0xffffffff. */
  predicate NullPrevout(prevout: Bytes) {
    |prevout| == 36 && Le(prevout[32..]) == 0xffff_ffff && forall i :: 0 <= i < 32 ==> prevout[i] == 0
  }

  predicate IsCoinbase(t: Tx) {
    |t.ins| == 1 && NullPrevout(t.ins[0].prevout)
  }

  /** The deposit a transaction makes: the custody total and the first recipient. */
  function Deposit(t: Tx, custody: Bytes): Option<(nat, Bytes)> {
    var total := TotalPaid(t.outs, custody);
    var recipient := First(t.outs, RecipientOf);
    if IsCoinbase(t) || total >= U64_LIMIT || total == 0 || recipient.None? then None
    else Some((total, recipient.value))
  }

  /** The withdrawal a transaction pays out: the first payout and the first id. */
  function Withdrawal(t: Tx, recipient: Bytes): Option<(nat, Bytes)> {
    var payout := First(t.outs, PayoutTo(recipient));
    var id := First(t.outs, WithdrawalIdOf);
    if payout.None? || id.None? then None else Some((payout.value, id.value))
  }

  /** The one legacy transaction that is exactly these bytes, if there is one. */
  function Decoded(tx: Bytes): Option<Tx> {
    match TakeTx(tx)
    case Ok((t, rest)) => if rest == [] && t.wit.NoWitness? then Some(t) else None
    case Err(_) => None
  }

  function DepositIn(tx: Bytes, custody: Bytes): Option<(nat, Bytes)> {
    var t :- Decoded(tx);
    Deposit(t, custody)
  }

  function WithdrawalIn(tx: Bytes, recipient: Bytes): Option<(nat, Bytes)> {
    var t :- Decoded(tx);
    Withdrawal(t, recipient)
  }

  // ---------------------------------------------------------------- the walk

  /** `read_varint`. */
  function ReadVarint(tx: Bytes, p: nat): Option<(nat, nat)> {
    if p >= |tx| then None
    else if tx[p] == 0xfd then
      if p + 3 > |tx| then None else Some((Le(tx[p + 1..p + 3]), p + 3))
    else if tx[p] == 0xfe then
      if p + 5 > |tx| then None else Some((Le(tx[p + 1..p + 5]), p + 5))
    else if tx[p] == 0xff then
      if p + 9 > |tx| then None else Some((Le(tx[p + 1..p + 9]), p + 9))
    else Some((tx[p], p + 1))
  }

  /** The walker's integer reader and the cursor's agree everywhere. */
  lemma ReadVarintIsTake(tx: Bytes, p: nat)
    requires p <= |tx|
    ensures match TakeVarint(tx[p..])
            case Ok((v, rest)) => ReadVarint(tx, p).Some? && var (n, q) := ReadVarint(tx, p).value;
                                  n == v.n && p < q <= |tx| && tx[q..] == rest
            case Err(_) => ReadVarint(tx, p).None?
  {
    if p < |tx| {
      var k := if tx[p] == 0xfd then 2 else if tx[p] == 0xfe then 4 else if tx[p] == 0xff then 8 else 0;
      assert tx[p..][1..] == tx[p + 1..];
      if p + 1 + k <= |tx| {
        assert tx[p + 1..][..k] == tx[p + 1..p + 1 + k] && tx[p + 1..][k..] == tx[p + 1 + k..];
      }
    }
  }

  /** Progress of a walk: `spec` succeeds exactly when the position exists, and leaves the same bytes. */
  ghost predicate Reaches<T(!new)>(spec: Parsed<T>, tx: Bytes, q: Option<nat>) {
    match spec
    case Ok((_, rest)) => q.Some? && q.value <= |tx| && tx[q.value..] == rest
    case Err(_) => q.None?
  }

  /** One input: prevout, script and sequence are skipped, never looked into. */
  method SkipInput(tx: Bytes, p: nat) returns (q: Option<nat>)
    requires p <= |tx|
    ensures Reaches(TakeIn(tx[p..]), tx, q)
  {
    if p + 36 > |tx| {
      return None;
    }
    ReadVarintIsTake(tx, p + 36);
    assert tx[p..][36..] == tx[p + 36..];
    var n := ReadVarint(tx, p + 36);
    if n.None? {
      return None;
    }
    var end := n.value.1 + n.value.0 + 4;
    if end > |tx| {
      return None;
    }
    assert tx[n.value.1..][n.value.0..] == tx[n.value.1 + n.value.0..];
    assert tx[n.value.1 + n.value.0..][4..] == tx[end..];
    return Some(end);
  }

  /** The input loop, also telling whether the first input is a generation input. */
  method SkipInputs(tx: Bytes, start: nat, count: nat) returns (q: Option<nat>, coinbase: bool)
    requires start <= |tx|
    ensures Reaches(TakeMany(TakeIn, tx[start..], count), tx, q)
    ensures q.Some? && count > 0 ==>
              coinbase == NullPrevout(TakeMany(TakeIn, tx[start..], count).value.0[0].prevout)
  {
    hide TakeIn, NullPrevout;
    coinbase := false;
    ghost var done: seq<TxIn> := [];
    ghost var whole := TakeMany(TakeIn, tx[start..], count);
    PrependNothing(whole);
    var p: nat, i: nat := start, 0;
    while i < count
      invariant 0 <= i <= count && p <= |tx| && |done| == i
      invariant whole == Prepend(done, TakeMany(TakeIn, tx[p..], count - i))
      invariant i > 0 ==> coinbase == NullPrevout(done[0].prevout)
    {
      ManyStep(TakeIn, tx[p..], count - i, done);
      var next := SkipInput(tx, p);
      if next.None? {
        return None, coinbase;
      }
      if i == 0 {
        coinbase := IsNullAt(tx, p);
      }
      done := done + [TakeIn(tx[p..]).value.0];
      p, i := next.value, i + 1;
    }
    ManyDone(TakeIn, tx[p..], done);
    return Some(p), coinbase;
  }

  /** The prevout test of the first input. */
  method IsNullAt(tx: Bytes, p: nat) returns (isNull: bool)
    requires p <= |tx| && TakeIn(tx[p..]).Ok?
    ensures isNull == NullPrevout(TakeIn(tx[p..]).value.0.prevout)
  {
    ghost var prevout := TakeIn(tx[p..]).value.0.prevout;
    assert prevout == tx[p..][..36];
    assert prevout[32..] == tx[p + 32..p + 36];
    var zero := true;
    for i := 0 to 32
      invariant zero <==> forall k :: 0 <= k < i ==> prevout[k] == 0
    {
      zero := zero && tx[p + i] == 0;
    }
    return Le(tx[p + 32..p + 36]) == 0xffff_ffff && zero;
  }

  /** One output: its value and its script. */
  method ReadOutput(tx: Bytes, p: nat) returns (q: Option<nat>, value: nat, script: Bytes)
    requires p <= |tx|
    ensures Reaches(TakeOut(tx[p..]), tx, q)
    ensures q.Some? ==> var o := TakeOut(tx[p..]).value.0; value == Sats(o) && script == o.script.data
  {
    value, script := 0, [];
    if p + 8 > |tx| {
      return None, value, script;
    }
    value := Le(tx[p..p + 8]);
    assert tx[p..][..8] == tx[p..p + 8] && tx[p..][8..] == tx[p + 8..];
    ReadVarintIsTake(tx, p + 8);
    var n := ReadVarint(tx, p + 8);
    if n.None? {
      return None, value, script;
    }
    var from, end := n.value.1, n.value.1 + n.value.0;
    if end > |tx| {
      return None, value, script;
    }
    script := tx[from..end];
    assert tx[from..][..n.value.0] == script && tx[from..][n.value.0..] == tx[end..];
    return Some(end), value, script;
  }

  // ---------------------------------------------------------------- the deposit reader

  lemma {:induction false} TotalPaidGrows(done: seq<TxOut>, more: seq<TxOut>, hash160: Bytes)
    ensures TotalPaid(done + more, hash160) >= TotalPaid(done, hash160)
  {
    if more == [] {
      assert done + more == done;
    } else {
      var m := |more| - 1;
      assert (done + more)[..|done + more| - 1] == done + more[..m];
      TotalPaidGrows(done, more[..m], hash160);
    }
  }

  lemma SnocOutput<T>(done: seq<TxOut>, o: TxOut, hash160: Bytes, f: TxOut -> Option<T>)
    ensures TotalPaid(done + [o], hash160)
            == TotalPaid(done, hash160) + (if PaysTo(o.script.data, hash160) then Sats(o) else 0)
    ensures First(done + [o], f) == if First(done, f).Some? then First(done, f) else f(o)
  {
    assert (done + [o])[..|done|] == done;
  }

  /** Once the sum over the outputs read so far overflows, so does the sum over all of them. */
  lemma OverflowStays(done: seq<TxOut>, more: Parsed<seq<TxOut>>, custody: Bytes)
    requires TotalPaid(done, custody) >= U64_LIMIT
    ensures var whole := Prepend(done, more);
            whole.Ok? ==> TotalPaid(whole.value.0, custody) >= U64_LIMIT
  {
    if more.Ok? {
      TotalPaidGrows(done, more.value.0, custody);
    }
  }

  /** One more output: a paying script names no recipient. */
  lemma DepositSnoc(done: seq<TxOut>, o: TxOut, custody: Bytes)
    ensures TotalPaid(done + [o], custody)
            == TotalPaid(done, custody) + (if PaysTo(o.script.data, custody) then Sats(o) else 0)
    ensures var known := First(done, RecipientOf);
            First(done + [o], RecipientOf)
            == if PaysTo(o.script.data, custody) || known.Some? then known else RecipientIn(o.script.data)
  {
    hide TotalPaid, First, PaysTo, RecipientIn;
    SnocOutput(done, o, custody, RecipientOf);
    if PaysTo(o.script.data, custody) {
      ShapesDisjoint(o.script.data, custody);
    }
  }

  /** The output loop of the deposit reader; it stops at a truncated output and at an overflowing sum. */
  method SumOutputs(tx: Bytes, start: nat, count: nat, custody: Bytes)
    returns (q: Option<nat>, sats: nat, recipient: Option<Bytes>)
    requires start <= |tx|
    ensures q.Some? ==>
              && Reaches(TakeMany(TakeOut, tx[start..], count), tx, q)
              && var outs := TakeMany(TakeOut, tx[start..], count).value.0;
                 sats == TotalPaid(outs, custody) < U64_LIMIT && recipient == First(outs, RecipientOf)
    ensures q.None? ==>
              var whole := TakeMany(TakeOut, tx[start..], count);
              whole.Ok? ==> TotalPaid(whole.value.0, custody) >= U64_LIMIT
  {
    hide TakeOut, PaysTo, RecipientIn, RecipientOf, Sats, TakeMany;
    sats, recipient := 0, None;
    ghost var done: seq<TxOut> := [];
    ghost var whole := TakeMany(TakeOut, tx[start..], count);
    PrependNothing(whole);
    assert TotalPaid(done, custody) == 0 && First(done, RecipientOf) == None;
    hide TotalPaid, First, Prepend;
    var p: nat, i: nat := start, 0;
    while i < count
      invariant 0 <= i <= count && p <= |tx|
      invariant whole == Prepend(done, TakeMany(TakeOut, tx[p..], count - i))
      invariant sats == TotalPaid(done, custody) < U64_LIMIT
      invariant recipient == First(done, RecipientOf)
    {
      ManyStep(TakeOut, tx[p..], count - i, done);
      var next, value, script := ReadOutput(tx, p);
      if next.None? {
        return None, sats, recipient;
      }
      ghost var o := TakeOut(tx[p..]).value.0;
      DepositSnoc(done, o, custody);
      done := done + [o];
      p, i := next.value, i + 1;
      if PaysTo(script, custody) {
        if sats + value >= U64_LIMIT {
          OverflowStays(done, TakeMany(TakeOut, tx[p..], count - i), custody);
          return None, sats, recipient;
        }
        sats := sats + value;
      } else if recipient.None? {
        recipient := RecipientIn(script);
      }
    }
    ManyDone(TakeOut, tx[p..], done);
    return Some(p), sats, recipient;
  }

  /** What the two readers know about the bytes once the input loop is done. */
  lemma HeadDecodes(tx: Bytes, p: nat)
    requires 4 <= |tx| && ReadVarint(tx, 4).Some? && ReadVarint(tx, 4).value.0 > 0
    requires p <= |tx|
    requires var (n, q) := ReadVarint(tx, 4).value;
             q <= |tx| && Reaches(TakeMany(TakeIn, tx[q..], n), tx, Some(p))
    ensures var (n, q) := ReadVarint(tx, 4).value;
            var ins := TakeMany(TakeIn, tx[q..], n).value.0;
            && |ins| == n
            && match TakeVarint(tx[p..])
               case Err(_) => Decoded(tx).None?
               case Ok((nout, rest)) =>
                 match TakeMany(TakeOut, rest, nout.n)
                 case Err(_) => Decoded(tx).None?
                 case Ok((outs, rest)) =>
                   && (|rest| != 4 ==> Decoded(tx).None?)
                   && (|rest| == 4 ==>
                         Decoded(tx).Some? && Decoded(tx).value.ins == ins && Decoded(tx).value.outs == outs)
  {
    hide TakeIn, TakeOut, TakeVarint;
    ReadVarintIsTake(tx, 4);
    var (n, q) := ReadVarint(tx, 4).value;
    ManyInsSound(tx[q..], n);
  }

  /** Bytes that do not start with a counted, complete list of inputs decode to nothing. */
  lemma HeadFails(tx: Bytes)
    requires |tx| < 4 || ReadVarint(tx, 4).None? || ReadVarint(tx, 4).value.0 == 0
             || (ReadVarint(tx, 4).value.1 <= |tx|
                 && TakeMany(TakeIn, tx[ReadVarint(tx, 4).value.1..], ReadVarint(tx, 4).value.0).Err?)
    ensures Decoded(tx).None?
  {
    hide TakeIn, TakeOut, TakeVarint, TakeStack;
    if |tx| >= 4 {
      ReadVarintIsTake(tx, 4);
    }
  }

  /** `parse_deposit_outputs`. */
  method ParseDepositOutputs(tx: Bytes, custody: Bytes) returns (r: Option<(nat, Bytes)>)
    requires |custody| == 20
    ensures r == DepositIn(tx, custody)
  {
    hide Decoded, TakeIn, TakeOut, ReadVarint;
    if |tx| < 4 {
      HeadFails(tx);
      return None;
    }
    var vin := ReadVarint(tx, 4);
    if vin.None? || vin.value.0 == 0 {
      HeadFails(tx);
      return None;
    }
    ReadVarintIsTake(tx, 4);
    var q, coinbase := SkipInputs(tx, vin.value.1, vin.value.0);
    if q.None? {
      HeadFails(tx);
      return None;
    }
    HeadDecodes(tx, q.value);
    if vin.value.0 == 1 && coinbase {
      return None;
    }
    ReadVarintIsTake(tx, q.value);
    var vout := ReadVarint(tx, q.value);
    if vout.None? || vout.value.0 == 0 {
      return None;
    }
    var end, sats, recipient := SumOutputs(tx, vout.value.1, vout.value.0, custody);
    if end.None? || end.value + 4 != |tx| || sats == 0 || recipient.None? {
      return None;
    }
    return Some((sats, recipient.value));
  }

  // ---------------------------------------------------------------- the withdrawal reader

  /** The output loop of the withdrawal reader. */
  method FindPayout(tx: Bytes, start: nat, count: nat, recipient: Bytes)
    returns (q: Option<nat>, payout: Option<nat>, id: Option<Bytes>)
    requires start <= |tx|
    ensures Reaches(TakeMany(TakeOut, tx[start..], count), tx, q)
    ensures q.Some? ==>
              var outs := TakeMany(TakeOut, tx[start..], count).value.0;
              payout == First(outs, PayoutTo(recipient)) && id == First(outs, WithdrawalIdOf)
  {
    hide TakeOut, PaysTo, WithdrawalIdIn, Sats;
    payout, id := None, None;
    ghost var done: seq<TxOut> := [];
    ghost var whole := TakeMany(TakeOut, tx[start..], count);
    PrependNothing(whole);
    var p: nat, i: nat := start, 0;
    while i < count
      invariant 0 <= i <= count && p <= |tx|
      invariant whole == Prepend(done, TakeMany(TakeOut, tx[p..], count - i))
      invariant payout == First(done, PayoutTo(recipient)) && id == First(done, WithdrawalIdOf)
    {
      ManyStep(TakeOut, tx[p..], count - i, done);
      var next, value, script := ReadOutput(tx, p);
      if next.None? {
        return None, payout, id;
      }
      ghost var o := TakeOut(tx[p..]).value.0;
      assert (done + [o])[..|done|] == done;
      if payout.None? && PaysTo(script, recipient) {
        ShapesDisjoint(script, recipient);
        payout := Some(value);
      } else if id.None? {
        id := WithdrawalIdIn(script);
      }
      done := done + [o];
      p, i := next.value, i + 1;
    }
    ManyDone(TakeOut, tx[p..], done);
    return Some(p), payout, id;
  }

  /** `parse_withdrawal_outputs`. */
  method ParseWithdrawalOutputs(tx: Bytes, recipient: Bytes) returns (r: Option<(nat, Bytes)>)
    requires |recipient| == 20
    ensures r == WithdrawalIn(tx, recipient)
  {
    hide Decoded, TakeIn, TakeOut, ReadVarint;
    if |tx| < 4 {
      HeadFails(tx);
      return None;
    }
    var vin := ReadVarint(tx, 4);
    if vin.None? || vin.value.0 == 0 {
      HeadFails(tx);
      return None;
    }
    ReadVarintIsTake(tx, 4);
    var q, _ := SkipInputs(tx, vin.value.1, vin.value.0);
    if q.None? {
      HeadFails(tx);
      return None;
    }
    HeadDecodes(tx, q.value);
    ReadVarintIsTake(tx, q.value);
    var vout := ReadVarint(tx, q.value);
    if vout.None? || vout.value.0 == 0 {
      return None;
    }
    var end, payout, id := FindPayout(tx, vout.value.1, vout.value.0, recipient);
    if end.None? || end.value + 4 != |tx| || payout.None? || id.None? {
      return None;
    }
    return Some((payout.value, id.value));
  }

  // ---------------------------------------------------------------- what a reader's answer means

  /** Bytes decode to `t` exactly when they are a legacy encoding of `t`, whole. */
  lemma DecodedMeaning(tx: Bytes, t: Tx)
    ensures Decoded(tx) == Some(t) <==> ValidTx(t) && t.wit.NoWitness? && tx == SerTx(t)
  {
    hide TakeTx, SerTx, ValidTx;
    if Decoded(tx) == Some(t) {
      TxSound(tx);
      assert SerTx(t) + [] == SerTx(t);
    }
    if ValidTx(t) && t.wit.NoWitness? && tx == SerTx(t) {
      TxComplete(t, []);
      assert SerTx(t) + [] == SerTx(t);
    }
  }

  // The same on the bytes of the scripts, without the readers' tests.

  /** `OP_DUP OP_HASH160 <hash> OP_EQUALVERIFY OP_CHECKSIG`, as bytes. */
  function PayScript(hash160: Bytes): Bytes { [0x76, 0xa9, 0x14] + hash160 + [0x88, 0xac] }

  /** `OP_RETURN <h>`, plain or wrapped once more, as bytes. */
  predicate NamesRecipient(script: Bytes, h: Bytes) {
    |h| == 20 && (script == [0x6a, 0x14] + h || script == [0x6a, 0x16, 0x6a, 0x14] + h)
  }

  predicate NamesWithdrawal(script: Bytes, w: Bytes) {
    |w| == 32 && script == [0x6a, 0x20] + w
  }

  lemma PaysToScript(script: Bytes, hash160: Bytes)
    requires |hash160| == 20
    ensures PaysTo(script, hash160) <==> script == PayScript(hash160)
  {
    if PaysTo(script, hash160) {
      assert script == script[..3] + script[3..23] + script[23..];
    }
  }

  lemma RecipientScript(script: Bytes, h: Bytes)
    ensures RecipientIn(script) == Some(h) <==> NamesRecipient(script, h)
  {
    if RecipientIn(script) == Some(h) {
      assert |script| == 22 ==> script == [0x6a, 0x14] + script[2..];
      assert |script| == 24 ==> script == [0x6a, 0x16, 0x6a, 0x14] + script[4..];
    }
    if NamesRecipient(script, h) {
      assert |script| == 22 ==> script[2..22] == h;
      assert |script| == 24 ==> script[4..24] == h;
    }
  }

  lemma WithdrawalScript(script: Bytes, w: Bytes)
    ensures WithdrawalIdIn(script) == Some(w) <==> NamesWithdrawal(script, w)
  {
    if WithdrawalIdIn(script) == Some(w) {
      assert script == [0x6a, 0x20] + script[2..];
    }
    if NamesWithdrawal(script, w) {
      assert script[2..34] == w;
    }
  }

  /** The amounts at the outputs with this very script, added up. */
  function PaidTo(outs: seq<TxOut>, script: Bytes): nat {
    if outs == [] then 0
    else (if outs[0].script.data == script then Le(outs[0].value) else 0) + PaidTo(outs[1..], script)
  }

  lemma {:induction false} TotalIsPaid(outs: seq<TxOut>, hash160: Bytes)
    requires |hash160| == 20
    ensures TotalPaid(outs, hash160) == PaidTo(outs, PayScript(hash160))
  {
    hide PaysTo, PayScript;
    if outs != [] {
      var n := |outs| - 1;
      TotalIsPaid(outs[..n], hash160);
      PaysToScript(outs[n].script.data, hash160);
      PaidSnoc(outs, PayScript(hash160));
    }
  }

  lemma {:induction false} PaidSnoc(outs: seq<TxOut>, script: Bytes)
    requires outs != []
    ensures var n := |outs| - 1;
            PaidTo(outs, script)
            == PaidTo(outs[..n], script) + (if outs[n].script.data == script then Le(outs[n].value) else 0)
  {
    var n := |outs| - 1;
    if n > 0 {
      PaidSnoc(outs[1..], script);
      assert outs[1..][..n - 1] == outs[..n][1..];
    }
  }

  /** The value at the first output that has one. */
  ghost predicate IsFirst<T(!new)>(outs: seq<TxOut>, f: TxOut -> Option<T>, x: T) {
    exists k :: 0 <= k < |outs| && f(outs[k]) == Some(x) && forall j :: 0 <= j < k ==> f(outs[j]).None?
  }

  lemma {:induction false} FirstIsFirst<T(!new)>(outs: seq<TxOut>, f: TxOut -> Option<T>)
    ensures First(outs, f).Some? ==> IsFirst(outs, f, First(outs, f).value)
    ensures First(outs, f).None? ==> forall k :: 0 <= k < |outs| ==> f(outs[k]).None?
  {
    if outs != [] {
      var n := |outs| - 1;
      FirstIsFirst(outs[..n], f);
      if First(outs[..n], f).Some? {
        var k :| 0 <= k < n && f(outs[..n][k]) == Some(First(outs[..n], f).value)
                 && forall j :: 0 <= j < k ==> f(outs[..n][j]).None?;
        assert forall j :: 0 <= j < k ==> outs[..n][j] == outs[j];
      } else {
        assert forall j :: 0 <= j < n ==> outs[..n][j] == outs[j];
      }
    }
  }

  lemma FirstIff<T(!new)>(outs: seq<TxOut>, f: TxOut -> Option<T>, x: T)
    ensures First(outs, f) == Some(x) <==> IsFirst(outs, f, x)
  {
    FirstIsFirst(outs, f);
    if IsFirst(outs, f, x) {
      var k :| 0 <= k < |outs| && f(outs[k]) == Some(x) && forall j :: 0 <= j < k ==> f(outs[j]).None?;
      var y := First(outs, f).value;
      var i :| 0 <= i < |outs| && f(outs[i]) == Some(y) && forall j :: 0 <= j < i ==> f(outs[j]).None?;
    }
  }

  /** The first output whose script names anything names `h`. */
  ghost predicate FirstNamed(outs: seq<TxOut>, names: (Bytes, Bytes) -> bool, h: Bytes) {
    exists k :: 0 <= k < |outs| && names(outs[k].script.data, h) && NoneNamed(outs[..k], names)
  }

  ghost predicate NoneNamed(outs: seq<TxOut>, names: (Bytes, Bytes) -> bool) {
    forall j, g :: 0 <= j < |outs| ==> !names(outs[j].script.data, g)
  }

  /** The first output with this very script carries `sats`. */
  ghost predicate FirstPaid(outs: seq<TxOut>, script: Bytes, sats: nat) {
    exists k :: 0 <= k < |outs| && outs[k].script.data == script && Le(outs[k].value) == sats
                && forall j :: 0 <= j < k ==> outs[j].script.data != script
  }

  lemma FirstNamedIs(outs: seq<TxOut>, f: TxOut -> Option<Bytes>, names: (Bytes, Bytes) -> bool, h: Bytes)
    requires forall o: TxOut, g: Bytes :: f(o) == Some(g) <==> names(o.script.data, g)
    ensures First(outs, f) == Some(h) <==> FirstNamed(outs, names, h)
  {
    hide First;
    FirstIff(outs, f, h);
    if FirstNamed(outs, names, h) {
      var k :| 0 <= k < |outs| && names(outs[k].script.data, h) && NoneNamed(outs[..k], names);
      forall j | 0 <= j < k
        ensures f(outs[j]).None?
      {
        assert outs[..k][j] == outs[j];
        NamesNothing(outs[j], f, names);
      }
    }
    if IsFirst(outs, f, h) {
      var k :| 0 <= k < |outs| && f(outs[k]) == Some(h) && forall j :: 0 <= j < k ==> f(outs[j]).None?;
      forall j, g | 0 <= j < k
        ensures !names(outs[..k][j].script.data, g)
      {
        assert outs[..k][j] == outs[j] && f(outs[j]) != Some(g);
      }
    }
  }

  lemma NamesNothing(o: TxOut, f: TxOut -> Option<Bytes>, names: (Bytes, Bytes) -> bool)
    requires forall g: Bytes :: f(o) == Some(g) <==> names(o.script.data, g)
    ensures f(o).None? <==> forall g: Bytes :: !names(o.script.data, g)
  {
    assert f(o).Some? ==> f(o) == Some(f(o).value);
  }

  lemma FirstRecipientIs(outs: seq<TxOut>, h: Bytes)
    ensures First(outs, RecipientOf) == Some(h) <==> FirstNamed(outs, NamesRecipient, h)
  {
    hide RecipientIn, NamesRecipient, First, FirstNamed;
    forall o: TxOut, g: Bytes
      ensures RecipientOf(o) == Some(g) <==> NamesRecipient(o.script.data, g)
    {
      RecipientScript(o.script.data, g);
    }
    FirstNamedIs(outs, RecipientOf, NamesRecipient, h);
  }

  lemma FirstWithdrawalIs(outs: seq<TxOut>, w: Bytes)
    ensures First(outs, WithdrawalIdOf) == Some(w) <==> FirstNamed(outs, NamesWithdrawal, w)
  {
    hide WithdrawalIdIn, NamesWithdrawal, First, FirstNamed;
    forall o: TxOut, g: Bytes
      ensures WithdrawalIdOf(o) == Some(g) <==> NamesWithdrawal(o.script.data, g)
    {
      WithdrawalScript(o.script.data, g);
    }
    FirstNamedIs(outs, WithdrawalIdOf, NamesWithdrawal, w);
  }

  lemma FirstPayoutIs(outs: seq<TxOut>, hash160: Bytes, sats: nat)
    requires |hash160| == 20
    ensures First(outs, PayoutTo(hash160)) == Some(sats) <==> FirstPaid(outs, PayScript(hash160), sats)
  {
    hide PaysTo, PayScript, First;
    FirstIff(outs, PayoutTo(hash160), sats);
    forall o: TxOut
      ensures PaysTo(o.script.data, hash160) <==> o.script.data == PayScript(hash160)
    {
      PaysToScript(o.script.data, hash160);
    }
    var f := PayoutTo(hash160);
    if FirstPaid(outs, PayScript(hash160), sats) {
      var k :| 0 <= k < |outs| && outs[k].script.data == PayScript(hash160) && Le(outs[k].value) == sats
               && forall j :: 0 <= j < k ==> outs[j].script.data != PayScript(hash160);
      assert f(outs[k]) == Some(sats);
    }
    if IsFirst(outs, f, sats) {
      var k :| 0 <= k < |outs| && f(outs[k]) == Some(sats) && forall j :: 0 <= j < k ==> f(outs[j]).None?;
      assert outs[k].script.data == PayScript(hash160);
    }
  }

  /** The prevout of a generation input, as bytes. */
  predicate Generates(t: Tx) {
    |t.ins| == 1 && t.ins[0].prevout == seq(32, _ => 0) + [0xff, 0xff, 0xff, 0xff]
  }

  /** A transaction makes a deposit: it is no generation transaction, its outputs to custody add up to a
      positive 64-bit sum, and the first output that names a recipient names this one. */
  ghost predicate MakesDeposit(t: Tx, custody: Bytes, sats: nat, recipient: Bytes) {
    !Generates(t) && 0 < sats < 0x1_0000_0000_0000_0000 && sats == PaidTo(t.outs, PayScript(custody))
    && FirstNamed(t.outs, NamesRecipient, recipient)
  }

  /** A transaction pays out: the first output to the recipient, and the first withdrawal id. */
  ghost predicate MakesWithdrawal(t: Tx, recipient: Bytes, sats: nat, id: Bytes) {
    FirstPaid(t.outs, PayScript(recipient), sats) && FirstNamed(t.outs, NamesWithdrawal, id)
  }

  lemma GeneratesIff(t: Tx)
    requires ValidTx(t)
    ensures IsCoinbase(t) <==> Generates(t)
  {
    if |t.ins| == 1 {
      var prevout := t.ins[0].prevout;
      assert |prevout| == 36;
      NullTail(prevout[32..]);
      assert prevout == prevout[..32] + prevout[32..];
    }
  }

  lemma NullTail(s: Bytes)
    requires |s| == 4
    ensures Le(s) == 0xffff_ffff <==> s == [0xff, 0xff, 0xff, 0xff]
  {
    LeBytesOfLe(s);
    assert LeBytes(0xffff_ffff, 4) == [0xff, 0xff, 0xff, 0xff];
    assert Pow256(4) > 0xffff_ffff;
    LeOfLeBytes(0xffff_ffff, 4);
  }

  lemma DepositIs(t: Tx, custody: Bytes, d: (nat, Bytes))
    requires ValidTx(t) && |custody| == 20
    ensures Deposit(t, custody) == Some(d) <==> MakesDeposit(t, custody, d.0, d.1)
  {
    hide IsCoinbase, Generates, ValidTx, TotalPaid, PaidTo, First, FirstNamed, PayScript;
    GeneratesIff(t);
    TotalIsPaid(t.outs, custody);
    FirstRecipientIs(t.outs, d.1);
    if First(t.outs, RecipientOf).Some? {
      FirstRecipientIs(t.outs, First(t.outs, RecipientOf).value);
    }
  }

  lemma WithdrawalIs(t: Tx, recipient: Bytes, d: (nat, Bytes))
    requires |recipient| == 20
    ensures Withdrawal(t, recipient) == Some(d) <==> MakesWithdrawal(t, recipient, d.0, d.1)
  {
    hide First, FirstPaid, FirstNamed, PayScript;
    FirstPayoutIs(t.outs, recipient, d.0);
    FirstWithdrawalIs(t.outs, d.1);
  }

  /** A deposit is reported exactly for the bytes of a legacy transaction that makes it. */
  lemma DepositMeaning(tx: Bytes, custody: Bytes, d: (nat, Bytes))
    requires |custody| == 20
    ensures DepositIn(tx, custody) == Some(d)
            <==> exists t :: ValidTx(t) && t.wit.NoWitness? && tx == SerTx(t) && MakesDeposit(t, custody, d.0, d.1)
  {
    hide ValidTx, Deposit, MakesDeposit, Decoded, SerTx;
    forall t | ValidTx(t)
      ensures Decoded(tx) == Some(t) <==> t.wit.NoWitness? && tx == SerTx(t)
      ensures Deposit(t, custody) == Some(d) <==> MakesDeposit(t, custody, d.0, d.1)
    {
      DecodedMeaning(tx, t);
      DepositIs(t, custody, d);
    }
    if DepositIn(tx, custody) == Some(d) {
      var t := Decoded(tx).value;
      DecodedMeaning(tx, t);
      assert ValidTx(t) && t.wit.NoWitness? && tx == SerTx(t) && MakesDeposit(t, custody, d.0, d.1);
    }
  }

  /** A payout is reported exactly for the bytes of a legacy transaction that makes it. */
  lemma WithdrawalMeaning(tx: Bytes, recipient: Bytes, d: (nat, Bytes))
    requires |recipient| == 20
    ensures WithdrawalIn(tx, recipient) == Some(d)
            <==> exists t :: ValidTx(t) && t.wit.NoWitness? && tx == SerTx(t)
                             && MakesWithdrawal(t, recipient, d.0, d.1)
  {
    hide ValidTx, Withdrawal, MakesWithdrawal, Decoded, SerTx;
    forall t
      ensures Decoded(tx) == Some(t) <==> ValidTx(t) && t.wit.NoWitness? && tx == SerTx(t)
      ensures Withdrawal(t, recipient) == Some(d) <==> MakesWithdrawal(t, recipient, d.0, d.1)
    {
      DecodedMeaning(tx, t);
      WithdrawalIs(t, recipient, d);
    }
    if WithdrawalIn(tx, recipient) == Some(d) {
      var t := Decoded(tx).value;
      assert ValidTx(t) && t.wit.NoWitness? && tx == SerTx(t) && MakesWithdrawal(t, recipient, d.0, d.1);
    }
  }

  /** No input script, sequence number or length encoding can influence what is read. */
  lemma ScriptSigsIrrelevant(t: Tx, t': Tx, hash160: Bytes)
    requires ValidTx(t) && ValidTx(t') && t.wit.NoWitness? && t'.wit.NoWitness?
    requires t.outs == t'.outs && |t.ins| == |t'.ins|
    requires forall i :: 0 <= i < |t.ins| ==> t.ins[i].prevout == t'.ins[i].prevout
    ensures DepositIn(SerTx(t), hash160) == DepositIn(SerTx(t'), hash160)
    ensures WithdrawalIn(SerTx(t), hash160) == WithdrawalIn(SerTx(t'), hash160)
  {
    hide SerTx, Decoded;
    DecodedMeaning(SerTx(t), t);
    DecodedMeaning(SerTx(t'), t');
  }

  /** Whatever a payment reader accepts, the cursor accepts too and consumes to the last byte. */
  lemma PaymentsAreTransactions(tx: Bytes, hash160: Bytes)
    requires DepositIn(tx, hash160).Some? || WithdrawalIn(tx, hash160).Some?
    ensures StripTx(tx).Ok? && StripTx(tx).value.1 == []
  {
  }
}
