/** The signed cache-invalidation message (`persistence.ts`): what the subscriber accepts.
    JSON text is left out: a payload is the value it parses to. The keyed hash is a
    parameter `mac` from a text and a secret to bytes. */
module InvalidationMessage {
  import opened Options
  import Decimal

  const MAX_AGE_MS := 5 * 60 * 1000

  /** A field of the parsed payload. */
  datatype Field = Absent | Str(text: string) | Num(n: int)

  /** Nothing when the payload is no JSON object. */
  type Payload = Option<Fields>

  datatype Fields = Fields(documentId: Field, issuedAt: Field, signature: Field)

  type Mac = (string, string) -> seq<bv8>

  // ----- Hexadecimal -----

  function HexDigit(d: nat): (c: char)
    requires d < 16
    ensures HexValue(c) == Some(d)
  {
    if d < 10 then ('0' as int + d) as char else ('a' as int + (d - 10)) as char
  }

  function HexValue(c: char): (v: Option<nat>)
    ensures v.Some? ==> v.value < 16
  {
    if '0' <= c <= '9' then Some(c as int - '0' as int)
    else if 'a' <= c <= 'f' then Some(c as int - 'a' as int + 10)
    else if 'A' <= c <= 'F' then Some(c as int - 'A' as int + 10)
    else None
  }

  function HexOf(bytes: seq<bv8>): string {
    if bytes == [] then ""
    else [HexDigit(bytes[0] as nat / 16), HexDigit(bytes[0] as nat % 16)] + HexOf(bytes[1..])
  }

  /** `Buffer.from(s, 'hex')`: the bytes up to the first pair that is not hexadecimal. */
  function HexBytes(s: string): seq<bv8> {
    if |s| < 2 || HexValue(s[0]).None? || HexValue(s[1]).None? then []
    else [(HexValue(s[0]).value * 16 + HexValue(s[1]).value) as bv8] + HexBytes(s[2..])
  }

  lemma ByteParts(b: bv8)
    ensures b as nat < 256
    ensures ((b as nat / 16) * 16 + b as nat % 16) as bv8 == b
  {
  }

  lemma {:induction false} HexRoundTrip(bytes: seq<bv8>)
    ensures HexBytes(HexOf(bytes)) == bytes
  {
    if bytes != [] {
      hide HexDigit, HexValue;
      ByteParts(bytes[0]);
      HexRoundTrip(bytes[1..]);
      assert HexOf(bytes)[2..] == HexOf(bytes[1..]);
    }
  }

  // ----- Signing and checking -----

  function TimeText(t: int): (s: string)
    ensures ':' !in s && s != "" && (s[0] == '-' <==> t < 0)
  {
    if t < 0 then "-" + Decimal.Print(-t)
    else
      assert Decimal.IsDigit(Decimal.Print(t)[0]);
      Decimal.Print(t)
  }

  /** The text that is signed; times print in decimal. */
  function SignedText(documentId: string, issuedAt: int): string {
    documentId + ":" + TimeText(issuedAt)
  }

  function Sign(mac: Mac, documentId: string, issuedAt: int, secret: string): string {
    HexOf(mac(SignedText(documentId, issuedAt), secret))
  }

  function Encode(mac: Mac, documentId: string, secret: string, issuedAt: int): Payload {
    Some(Fields(Str(documentId), Num(issuedAt), Str(Sign(mac, documentId, issuedAt, secret))))
  }

  function Abs(n: int): nat {
    if n < 0 then -n else n
  }

  function Decode(mac: Mac, payload: Payload, secret: string, now: int): Option<string> {
    if payload.None? then None
    else
      var f := payload.value;
      if !f.documentId.Str? || f.documentId.text == "" || !f.issuedAt.Num? || !f.signature.Str? then None
      else if Abs(now - f.issuedAt.n) > MAX_AGE_MS then None
      else if HexBytes(f.signature.text) != HexBytes(Sign(mac, f.documentId.text, f.issuedAt.n, secret)) then None
      else Some(f.documentId.text)
  }

  /** A published message is accepted, as its document, exactly while it is fresh; one for
      the empty id never. */
  lemma DecodeEncode(mac: Mac, documentId: string, secret: string, issuedAt: int, now: int)
    ensures Decode(mac, Encode(mac, documentId, secret, issuedAt), secret, now)
            == if documentId != "" && issuedAt - MAX_AGE_MS <= now <= issuedAt + MAX_AGE_MS then Some(documentId) else None
  {
  }

  /** The payload names the document and the time, and the signature's bytes are the keyed hash
      of the two. */
  predicate IsSigned(mac: Mac, payload: Payload, secret: string, documentId: string, t: int, signature: string) {
    && payload == Some(Fields(Str(documentId), Num(t), Str(signature)))
    && HexBytes(signature) == mac(documentId + ":" + (if t < 0 then "-" + Decimal.Print(-t) else Decimal.Print(t)), secret)
  }

  /** Accepted are exactly the signed messages for a document with a time at most five minutes
      away; nothing else is, however malformed. */
  lemma DecodeIff(mac: Mac, payload: Payload, secret: string, now: int, documentId: string)
    ensures Decode(mac, payload, secret, now) == Some(documentId) <==>
      documentId != "" && exists t: int, signature: string ::
        t - 300_000 <= now <= t + 300_000 && IsSigned(mac, payload, secret, documentId, t, signature)
  {
    if payload.Some? && payload.value.issuedAt.Num? && payload.value.signature.Str? {
      var t, signature := payload.value.issuedAt.n, payload.value.signature.text;
      HexRoundTrip(mac(SignedText(documentId, t), secret));
      assert payload.value.documentId == Str(documentId) && HexBytes(signature) == mac(SignedText(documentId, t), secret)
        ==> IsSigned(mac, payload, secret, documentId, t, signature);
      hide HexBytes;
    }
  }

  lemma LastColon(a: string, x: string, b: string, y: string)
    requires a + ":" + x == b + ":" + y && ':' !in x && ':' !in y
    ensures a == b && x == y
  {
    var s := a + ":" + x;
    assert s[|a|] == ':' && s[|b|] == ':';
    forall i | |a| < i < |s| ensures s[i] != ':' {
      assert s[i] == x[i - |a| - 1];
    }
    forall i | |b| < i < |s| ensures s[i] != ':' {
      assert s[i] == y[i - |b| - 1];
    }
    assert a == s[..|a|] && b == s[..|b|];
    assert x == s[|a| + 1..] && y == s[|b| + 1..];
  }

  lemma TimeTextInjective(t: int, u: int)
    requires TimeText(t) == TimeText(u)
    ensures t == u
  {
    if t < 0 {
      assert TimeText(t)[1..] == Decimal.Print(-t) && TimeText(u)[1..] == Decimal.Print(-u);
      Decimal.PrintInjective(-t, -u);
    } else {
      Decimal.PrintInjective(t, u);
    }
  }

  /** The signed text names one document and one time, colons in the id notwithstanding. */
  lemma SignedTextInjective(d: string, t: int, e: string, u: int)
    requires SignedText(d, t) == SignedText(e, u)
    ensures d == e && t == u
  {
    LastColon(d, TimeText(t), e, TimeText(u));
    TimeTextInjective(t, u);
  }

  /** Two messages whose texts differ but have the same keyed hash. */
  predicate Collide(mac: Mac, secret: string, d: string, t: int, e: string, u: int) {
    SignedText(d, t) != SignedText(e, u) && mac(SignedText(d, t), secret) == mac(SignedText(e, u), secret)
  }

  /** The signature of one message is accepted, while fresh, for that document and time, and
      for no other unless the two collide. */
  lemma SignatureIsForOneMessage(mac: Mac, d: string, t: int, e: string, u: int, secret: string, now: int)
    ensures Decode(mac, Some(Fields(Str(e), Num(u), Str(Sign(mac, d, t, secret)))), secret, now).Some?
            <==> e != "" && Abs(now - u) <= MAX_AGE_MS && ((e == d && u == t) || Collide(mac, secret, d, t, e, u))
  {
    HexRoundTrip(mac(SignedText(d, t), secret));
    HexRoundTrip(mac(SignedText(e, u), secret));
    if SignedText(d, t) == SignedText(e, u) {
      SignedTextInjective(d, t, e, u);
    }
  }
}
