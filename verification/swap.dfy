/** The canonical text of a swap intent, which the maker signs: it determines every signed field. */
module Swap {
  import opened Bytes

  datatype SwapIntent = SwapIntent(
    protocol: string,
    version: u32,
    intentId: string,
    makerPubkey: string,
    fromChain: u32,
    toChain: u32,
    fromAmount: u64,
    toAmount: u64,
    makerReceiveAddress: string,
    timestamp: u64,
    expiry: u64,
    settlement: string,
    signature: string,
    adaptorPoint: string,
    makerNpub: string,
    makerRefundAddress: string)

  /** A member of the text: a quoted string or a bare number. */
  datatype Field = Quoted(name: string, text: string) | Bare(name: string, value: nat)

  /** The signed members, in their fixed order; the signature is not among them. */
  function SignedFields(i: SwapIntent): seq<Field> {
    [ Quoted("protocol", i.protocol),
      Bare("version", i.version),
      Quoted("intent_id", i.intentId),
      Quoted("maker_pubkey", i.makerPubkey),
      Bare("from_chain", i.fromChain),
      Bare("to_chain", i.toChain),
      Bare("from_amount", i.fromAmount),
      Bare("to_amount", i.toAmount),
      Quoted("maker_receive_address", i.makerReceiveAddress),
      Quoted("adaptor_point", i.adaptorPoint),
      Quoted("maker_npub", i.makerNpub),
      Quoted("maker_refund_address", i.makerRefundAddress),
      Bare("timestamp", i.timestamp),
      Bare("expiry", i.expiry),
      Quoted("settlement", i.settlement) ]
  }

  /** Backslashes and quotes get a backslash in front; nothing else is escaped. */
  function EscChar(c: char): string {
    if c == '\\' then "\\\\" else if c == '\"' then "\\\"" else [c]
  }

  function Esc(s: string): string {
    if s == "" then "" else EscChar(s[0]) + Esc(s[1..])
  }

  function Digit(d: nat): char
    requires d < 10
  {
    "0123456789"[d]
  }

  function Decimal(n: nat): (s: string)
    ensures s != ""
  {
    if n < 10 then [Digit(n)] else Decimal(n / 10) + [Digit(n % 10)]
  }

  function RenderValue(f: Field): string {
    match f
    case Quoted(_, text) => "\"" + Esc(text) + "\""
    case Bare(_, value) => Decimal(value)
  }

  function Head(name: string): string { "\"" + name + "\":" }

  function Render(f: Field): string {
    Head(f.name) + RenderValue(f)
  }

  /** Members separated by commas, up to the closing brace. */
  function RenderRest(fields: seq<Field>): string {
    if fields == [] then "}" else "," + Render(fields[0]) + RenderRest(fields[1..])
  }

  function CanonicalText(i: SwapIntent): string {
    var fields := SignedFields(i);
    "{" + Render(fields[0]) + RenderRest(fields[1..])
  }

  // ---------------------------------------------------------------- the loops

  /** The escaping loop. */
  method EscText(s: string) returns (out: string)
    ensures out == Esc(s)
  {
    hide Esc;
    out := "";
    assert s[0..] == s && "" + Esc(s) == Esc(s);
    for i := 0 to |s|
      invariant out + Esc(s[i..]) == Esc(s)
    {
      var c := s[i];
      EscNext(s, i, out);
      if c == '\\' {
        out := out + "\\\\";
      } else if c == '\"' {
        out := out + "\\\"";
      } else {
        out := out + [c];
      }
    }
    EscEnd(s, out);
  }

  lemma EscNext(s: string, i: nat, out: string)
    requires i < |s|
    ensures out + Esc(s[i..]) == (out + EscChar(s[i])) + Esc(s[i + 1..])
  {
    assert s[i..][1..] == s[i + 1..];
  }

  lemma EscEnd(s: string, out: string)
    ensures out + Esc(s[|s|..]) == out
  {
  }

  // ---------------------------------------------------------------- unique decoding

  /** An escaped string never starts with a bare quote, and its first character decides how it goes on. */
  lemma {:induction false} EscUnique(s: string, t: string, x: string, y: string)
    requires Esc(s) + "\"" + x == Esc(t) + "\"" + y
    ensures s == t && x == y
  {
    EscStart(s, x);
    EscStart(t, y);
    if s == "" {
      EscNone(x);
      EscNone(y);
    } else {
      EscSplit(s, x);
      EscSplit(t, y);
      hide Esc;
      EscCharUnique(s[0], t[0], Esc(s[1..]) + "\"" + x, Esc(t[1..]) + "\"" + y);
      EscUnique(s[1..], t[1..], x, y);
      assert s == [s[0]] + s[1..] && t == [t[0]] + t[1..];
    }
  }

  lemma EscNone(x: string)
    ensures (Esc("") + "\"" + x)[1..] == x
  {
  }

  lemma EscSplit(s: string, x: string)
    requires s != ""
    ensures Esc(s) + "\"" + x == EscChar(s[0]) + (Esc(s[1..]) + "\"" + x)
  {
    hide EscChar;
  }

  lemma EscStart(s: string, x: string)
    ensures (Esc(s) + "\"" + x)[0] == '\"' <==> s == ""
  {
  }

  lemma EscCharUnique(c: char, d: char, u: string, v: string)
    requires EscChar(c) + u == EscChar(d) + v
    ensures c == d && u == v
  {
    var a, b := EscChar(c) + u, EscChar(d) + v;
    assert a[0] == b[0];
    if c == '\\' || c == '\"' || d == '\\' || d == '\"' {
      assert EscChar(c) == a[..|EscChar(c)|] && EscChar(d) == b[..|EscChar(d)|];
      assert c == d by {
        assert |EscChar(c)| == 2 ==> a[1] == EscChar(c)[1];
        assert |EscChar(d)| == 2 ==> b[1] == EscChar(d)[1];
      }
    }
    assert u == a[|EscChar(c)|..] && v == b[|EscChar(d)|..];
  }

  predicate IsDigit(c: char) { '0' <= c <= '9' }

  lemma DigitUnique(d: nat, e: nat)
    requires d < 10 && e < 10
    ensures IsDigit(Digit(d))
    ensures Digit(d) == Digit(e) ==> d == e
  {
  }

  lemma {:induction false} DecimalDigits(n: nat)
    ensures forall i :: 0 <= i < |Decimal(n)| ==> IsDigit(Decimal(n)[i])
  {
    DigitUnique(n % 10, 0);
    if n >= 10 {
      DecimalDigits(n / 10);
    }
  }

  /** Different numbers have different numerals. */
  lemma {:induction false} DecimalInjective(m: nat, n: nat)
    requires Decimal(m) == Decimal(n)
    ensures m == n
  {
    var a, b := Decimal(m), Decimal(n);
    DigitUnique(m % 10, n % 10);
    assert a[|a| - 1] == Digit(m % 10) && b[|b| - 1] == Digit(n % 10);
    if m >= 10 && n >= 10 {
      assert a[..|a| - 1] == Decimal(m / 10) && b[..|b| - 1] == Decimal(n / 10);
      DecimalInjective(m / 10, n / 10);
    }
  }

  /** How many digits a text starts with. */
  function LeadingDigits(s: string): nat {
    if s == "" || !IsDigit(s[0]) then 0 else 1 + LeadingDigits(s[1..])
  }

  lemma {:induction false} DigitRun(a: string, x: string)
    requires forall i :: 0 <= i < |a| ==> IsDigit(a[i])
    requires x != "" && !IsDigit(x[0])
    ensures LeadingDigits(a + x) == |a|
  {
    if a == "" {
      assert a + x == x;
    } else {
      DigitRun(a[1..], x);
      assert (a + x)[1..] == a[1..] + x;
    }
  }

  /** A numeral ends at the first character that is no digit. */
  lemma DecimalUnique(m: nat, n: nat, x: string, y: string)
    requires Decimal(m) + x == Decimal(n) + y
    requires x != "" && y != "" && !IsDigit(x[0]) && !IsDigit(y[0])
    ensures m == n && x == y
  {
    hide Decimal;
    var a, b := Decimal(m), Decimal(n);
    DecimalDigits(m);
    DecimalDigits(n);
    DigitRun(a, x);
    DigitRun(b, y);
    assert a == (a + x)[..|a|] && b == (b + y)[..|b|];
    assert x == (a + x)[|a|..] && y == (b + y)[|b|..];
    DecimalInjective(m, n);
  }

  predicate SameKind(f: Field, g: Field) {
    f.name == g.name && (f.Quoted? <==> g.Quoted?)
  }

  lemma RenderSplit(f: Field, x: string)
    ensures Render(f) + x == Head(f.name) + (RenderValue(f) + x)
    ensures (Render(f) + x)[|Head(f.name)|..] == RenderValue(f) + x
  {
    hide RenderValue;
    var v := RenderValue(f) + x;
    assert Render(f) + x == Head(f.name) + v;
    assert (Head(f.name) + v)[|Head(f.name)|..] == v;
  }

  lemma QuotedSplit(text: string, x: string)
    ensures ("\"" + Esc(text) + "\"" + x)[1..] == Esc(text) + "\"" + x
  {
    hide Esc;
    var c := Esc(text) + "\"" + x;
    assert "\"" + Esc(text) + "\"" + x == "\"" + c;
  }

  lemma RenderUnique(f: Field, g: Field, x: string, y: string)
    requires SameKind(f, g) && Render(f) + x == Render(g) + y
    requires x != "" && y != "" && !IsDigit(x[0]) && !IsDigit(y[0])
    ensures f == g && x == y
  {
    hide Esc, Decimal, Render, Head;
    RenderSplit(f, x);
    RenderSplit(g, y);
    if f.Quoted? {
      QuotedSplit(f.text, x);
      QuotedSplit(g.text, y);
      EscUnique(f.text, g.text, x, y);
    } else {
      DecimalUnique(f.value, g.value, x, y);
    }
  }

  /** The members of the text after the first decode one by one. */
  lemma {:induction false} RestUnique(fs: seq<Field>, gs: seq<Field>)
    requires |fs| == |gs| && forall k :: 0 <= k < |fs| ==> SameKind(fs[k], gs[k])
    requires RenderRest(fs) == RenderRest(gs)
    ensures fs == gs
  {
    hide Render, RenderRest, SameKind;
    if fs != [] {
      RestHead(fs, gs);
      RestUnique(fs[1..], gs[1..]);
      assert fs == [fs[0]] + fs[1..] && gs == [gs[0]] + gs[1..];
    }
  }

  lemma RestHead(fs: seq<Field>, gs: seq<Field>)
    requires fs != [] && gs != [] && SameKind(fs[0], gs[0]) && RenderRest(fs) == RenderRest(gs)
    ensures fs[0] == gs[0] && RenderRest(fs[1..]) == RenderRest(gs[1..])
  {
    RestSplit(fs);
    RestSplit(gs);
    hide Render, RenderRest;
    RestStart(fs[1..]);
    RestStart(gs[1..]);
    RenderUnique(fs[0], gs[0], RenderRest(fs[1..]), RenderRest(gs[1..]));
  }

  lemma RestSplit(fs: seq<Field>)
    requires fs != []
    ensures RenderRest(fs)[1..] == Render(fs[0]) + RenderRest(fs[1..])
  {
    hide Render;
    var a := Render(fs[0]) + RenderRest(fs[1..]);
    assert RenderRest(fs) == "," + a;
  }

  lemma RestStart(fs: seq<Field>)
    ensures RenderRest(fs) != "" && !IsDigit(RenderRest(fs)[0])
  {
    hide Render;
  }

  /** Two intents have the same signed text exactly when they agree on every field but the signature. */
  lemma SignedTextInjective(i: SwapIntent, j: SwapIntent)
    ensures CanonicalText(i) == CanonicalText(j) <==> i == j.(signature := i.signature)
  {
    if CanonicalText(i) == CanonicalText(j) {
      FieldsFromText(i, j);
      SameFields(i, j);
    } else {
      hide Render, RenderRest;
    }
  }

  lemma FieldsFromText(i: SwapIntent, j: SwapIntent)
    requires CanonicalText(i) == CanonicalText(j)
    ensures SignedFields(i) == SignedFields(j)
  {
    hide Render, RenderRest;
    var fs, gs := SignedFields(i), SignedFields(j);
    FieldKinds(i, j);
    hide SignedFields;
    var a, b := Render(fs[0]) + RenderRest(fs[1..]), Render(gs[0]) + RenderRest(gs[1..]);
    assert CanonicalText(i) == "{" + a && CanonicalText(j) == "{" + b;
    assert a == CanonicalText(i)[1..] && b == CanonicalText(j)[1..];
    RestStart(fs[1..]);
    RestStart(gs[1..]);
    RenderUnique(fs[0], gs[0], RenderRest(fs[1..]), RenderRest(gs[1..]));
    RestUnique(fs[1..], gs[1..]);
    assert fs == [fs[0]] + fs[1..] && gs == [gs[0]] + gs[1..];
  }

  lemma FieldKinds(i: SwapIntent, j: SwapIntent)
    ensures var fs, gs := SignedFields(i), SignedFields(j);
            |fs| == |gs| == 15 && forall k :: 0 <= k < 15 ==> SameKind(fs[k], gs[k])
  {
  }

  lemma SameFields(i: SwapIntent, j: SwapIntent)
    requires SignedFields(i) == SignedFields(j)
    ensures i == j.(signature := i.signature)
  {
    var fs, gs := SignedFields(i), SignedFields(j);
    assert forall k :: 0 <= k < 15 ==> fs[k] == gs[k];
    assert fs[0].text == i.protocol && fs[2].text == i.intentId && fs[3].text == i.makerPubkey;
    assert fs[8].text == i.makerReceiveAddress && fs[9].text == i.adaptorPoint && fs[10].text == i.makerNpub;
    assert fs[11].text == i.makerRefundAddress && fs[14].text == i.settlement;
    assert fs[1].value == i.version && fs[4].value == i.fromChain && fs[5].value == i.toChain;
    assert fs[6].value == i.fromAmount && fs[7].value == i.toAmount;
    assert fs[12].value == i.timestamp && fs[13].value == i.expiry;
  }

  // ---------------------------------------------------------------- reading it back

  /** Reads an escaped text: a backslash stands before a backslash or a quote, and a quote never stands bare. */
  function Unesc(s: string): Option<string> {
    if s == "" then Some("")
    else if s[0] == '\\' then
      if |s| < 2 || (s[1] != '\\' && s[1] != '\"') then None
      else
        var rest :- Unesc(s[2..]);
        Some([s[1]] + rest)
    else if s[0] == '\"' then None
    else
      var rest :- Unesc(s[1..]);
      Some([s[0]] + rest)
  }

  /** Unescaping gives the text back. */
  lemma {:induction false} UnescInverts(s: string)
    ensures Unesc(Esc(s)) == Some(s)
  {
    if s != "" {
      UnescInverts(s[1..]);
      assert s == [s[0]] + s[1..];
      assert Esc(s)[|EscChar(s[0])|..] == Esc(s[1..]);
    }
  }

  /** The number a numeral denotes. */
  function NumeralValue(s: string): int {
    if s == "" then 0 else 10 * NumeralValue(s[..|s| - 1]) + (s[|s| - 1] as int - '0' as int)
  }

  /** A numeral denotes its number, in digits, without a leading zero. */
  lemma {:induction false} DecimalDenotes(n: nat)
    ensures NumeralValue(Decimal(n)) == n
    ensures Decimal(n)[0] == '0' <==> n == 0
    ensures forall i :: 0 <= i < |Decimal(n)| ==> '0' <= Decimal(n)[i] <= '9'
  {
    DigitDenotes(n % 10);
    DecimalDigits(n);
    var s := Decimal(n);
    assert NumeralValue([]) == 0;
    if n < 10 {
      assert s[..|s| - 1] == [];
    } else {
      DecimalDenotes(n / 10);
      assert s[..|s| - 1] == Decimal(n / 10) && s[|s| - 1] == Digit(n % 10);
    }
  }

  lemma DigitDenotes(d: nat)
    requires d < 10
    ensures Digit(d) as int == '0' as int + d
  {
  }

  // ---------------------------------------------------------------- the layout

  function Text(name: string, text: string): string { "\"" + name + "\":\"" + Esc(text) + "\"" }
  function Number(name: string, value: nat): string { "\"" + name + "\":" + Decimal(value) }

  /** The members of the signed text, in order. */
  function Members(i: SwapIntent): seq<string> {
    [ Text("protocol", i.protocol),
      Number("version", i.version),
      Text("intent_id", i.intentId),
      Text("maker_pubkey", i.makerPubkey),
      Number("from_chain", i.fromChain),
      Number("to_chain", i.toChain),
      Number("from_amount", i.fromAmount),
      Number("to_amount", i.toAmount),
      Text("maker_receive_address", i.makerReceiveAddress),
      Text("adaptor_point", i.adaptorPoint),
      Text("maker_npub", i.makerNpub),
      Text("maker_refund_address", i.makerRefundAddress),
      Number("timestamp", i.timestamp),
      Number("expiry", i.expiry),
      Text("settlement", i.settlement) ]
  }

  function WithCommas(members: seq<string>): string
    requires members != []
  {
    if |members| == 1 then members[0] else members[0] + "," + WithCommas(members[1..])
  }

  function MemberOf(f: Field): string {
    if f.Quoted? then Text(f.name, f.text) else Number(f.name, f.value)
  }

  lemma MemberText(f: Field)
    ensures Render(f) == MemberOf(f)
  {
    hide Esc, Decimal;
  }

  lemma {:induction false} MembersJoin(fields: seq<Field>, members: seq<string>)
    requires fields != [] && |fields| == |members|
    requires forall k :: 0 <= k < |fields| ==> Render(fields[k]) == members[k]
    ensures Render(fields[0]) + RenderRest(fields[1..]) == WithCommas(members) + "}"
  {
    hide Render;
    if |fields| > 1 {
      MembersJoin(fields[1..], members[1..]);
      var rest := WithCommas(members[1..]);
      var next := Render(fields[1..][0]) + RenderRest(fields[1..][1..]);
      assert RenderRest(fields[1..]) == "," + next;
      assert Render(fields[0]) + ("," + (rest + "}")) == (Render(fields[0]) + "," + rest) + "}";
    }
  }

  lemma MembersAre(i: SwapIntent)
    ensures forall k :: 0 <= k < 15 ==> MemberOf(SignedFields(i)[k]) == Members(i)[k]
  {
    hide Text, Number;
  }

  lemma MembersRender(i: SwapIntent)
    ensures var fs, ms := SignedFields(i), Members(i);
            |fs| == |ms| == 15 && forall k :: 0 <= k < 15 ==> Render(fs[k]) == ms[k]
  {
    MembersAre(i);
    FieldKinds(i, i);
    hide Render, Text, Number, SignedFields;
    forall k | 0 <= k < 15
      ensures Render(SignedFields(i)[k]) == Members(i)[k]
    {
      MemberText(SignedFields(i)[k]);
    }
  }

  /** The signed text, written out: fixed names in a fixed order, no spaces, every text escaped. */
  lemma SignedTextIs(i: SwapIntent)
    ensures CanonicalText(i) == "{" + WithCommas(Members(i)) + "}"
  {
    hide Render, RenderRest, WithCommas, SignedFields, Members;
    var fs, ms := SignedFields(i), Members(i);
    MembersRender(i);
    MembersJoin(fs, ms);
    Braces(Render(fs[0]) + RenderRest(fs[1..]), WithCommas(ms));
  }

  lemma Braces(a: string, b: string)
    requires a == b + "}"
    ensures "{" + a == "{" + b + "}"
  {
  }
}
