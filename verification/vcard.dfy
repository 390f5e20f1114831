/**
 * The vCard text the bot writes for one contact, a subset of vCard 3.0
 * (RFC 2426): BEGIN, VERSION, FN, a bare TEL with no TYPE parameter, END,
 * each line ended by `\n`. A decoder for exactly this layout is the
 * partner that shows the encoding loses nothing.
 */
module VCard {
  import opened Wrappers

  /** One contact as written: display name (FN) and phone number (TEL). */
  datatype Card = Card(name: string, tel: string)

  const Begin: string := "BEGIN:VCARD\nVERSION:3.0\nFN:"
  const TelTag: string := "TEL:"
  const End: string := "END:VCARD\n"

  /** `f"BEGIN:VCARD\nVERSION:3.0\nFN:{name}\nTEL:{tel}\nEND:VCARD\n"`. */
  function Encode(c: Card): string {
    Begin + c.name + "\n" + TelTag + c.tel + "\n" + End
  }

  /** The blocks of several contacts, one after the other. */
  function EncodeAll(cs: seq<Card>): string
    decreases |cs|
  {
    if |cs| == 0 then "" else Encode(cs[0]) + EncodeAll(cs[1..])
  }

  /** Encoding distributes over concatenation of contact lists. */
  lemma {:induction false} EncodeAllAppend(a: seq<Card>, b: seq<Card>)
    ensures EncodeAll(a + b) == EncodeAll(a) + EncodeAll(b)
    decreases |a|
  {
    if |a| > 0 {
      assert (a + b)[1..] == a[1..] + b;
      EncodeAllAppend(a[1..], b);
    } else {
      assert a + b == b;
    }
  }

  /** Encoding a list extended by one contact appends that contact's block. */
  lemma EncodeAllSnoc(a: seq<Card>, c: Card)
    ensures EncodeAll(a + [c]) == EncodeAll(a) + Encode(c)
  {
    EncodeAllAppend(a, [c]);
    assert EncodeAll([c]) == Encode(c) + EncodeAll([]);
  }

  predicate StartsWith(s: string, p: string) {
    |p| <= |s| && s[..|p|] == p
  }

  /** Splits `s` at its first `\n`: the text before it and the text after it. */
  function TakeLine(s: string): (r: Option<(string, string)>)
    ensures r.None? <==> '\n' !in s
    ensures r.Some? ==> '\n' !in r.value.0 && s == r.value.0 + "\n" + r.value.1
    decreases |s|
  {
    if |s| == 0 then None
    else if s[0] == '\n' then Some(("", s[1..]))
    else
      match TakeLine(s[1..])
      case None => None
      case Some(p) => Some(([s[0]] + p.0, p.1))
  }

  /** The first `\n` of `x + "\n" + y` is the one after `x` when `x` has none. */
  lemma {:induction false} TakeLineAppend(x: string, y: string)
    requires '\n' !in x
    ensures TakeLine(x + "\n" + y) == Some((x, y))
    decreases |x|
  {
    if |x| > 0 {
      assert (x + "\n" + y)[1..] == x[1..] + "\n" + y;
      TakeLineAppend(x[1..], y);
      assert [x[0]] + x[1..] == x;
    } else {
      assert x + "\n" + y == "\n" + y;
    }
  }

  /** The text after the prefix `p` of `s`; None when `s` does not begin with `p`. */
  function Expect(s: string, p: string): (r: Option<string>)
    ensures r.Some? <==> StartsWith(s, p)
    ensures r.Some? ==> s == p + r.value
  {
    if StartsWith(s, p) then Some(s[|p|..]) else None
  }

  lemma ExpectAppend(p: string, x: string)
    ensures Expect(p + x, p) == Some(x)
  {
    assert (p + x)[..|p|] == p;
  }

  /** Reads one block in exactly the layout Encode writes: the card and the
      text after the block; None when `s` does not begin with such a block. */
  function DecodeCard(s: string): (r: Option<(Card, string)>)
    ensures r.Some? ==> |r.value.1| < |s|
  {
    match Expect(s, Begin)
    case None => None
    case Some(afterBegin) =>
      match TakeLine(afterBegin)
      case None => None
      case Some(fn) =>
        match Expect(fn.1, TelTag)
        case None => None
        case Some(afterTag) =>
          match TakeLine(afterTag)
          case None => None
          case Some(tel) =>
            match Expect(tel.1, End)
            case None => None
            case Some(rest) => Some((Card(fn.0, tel.0), rest))
  }

  /** Reads back a stream of blocks in exactly the layout Encode writes;
      None when the text is not such a stream. */
  function Decode(s: string): (r: Option<seq<Card>>)
    decreases |s|
  {
    if |s| == 0 then Some([])
    else
      match DecodeCard(s)
      case None => None
      case Some(p) =>
        match Decode(p.1)
        case None => None
        case Some(cs) => Some([p.0] + cs)
  }

  /** A card Decode can read back: neither field contains `\n`. */
  predicate Decodable(c: Card) {
    '\n' !in c.name && '\n' !in c.tel
  }

  /** The block of a decodable card is read back as that card, and reading
      stops right after it. */
  lemma DecodeCardEncode(c: Card, rest: string)
    requires Decodable(c)
    ensures DecodeCard(Encode(c) + rest) == Some((c, rest))
  {
    var tail := End + rest;
    var afterTel := c.tel + "\n" + tail;
    var afterFn := TelTag + afterTel;
    var body := c.name + "\n" + afterFn;
    assert Encode(c) + rest == Begin + body;
    ExpectAppend(Begin, body);
    TakeLineAppend(c.name, afterFn);
    ExpectAppend(TelTag, afterTel);
    TakeLineAppend(c.tel, tail);
    ExpectAppend(End, rest);
  }

  lemma Reassociate(a: string, b: string, c: string, d: string, e: string, f: string, g: string, h: string)
    ensures a + (b + c + (d + (e + f + (g + h)))) == a + b + c + d + e + f + g + h
  {
  }

  /** Whatever DecodeCard reads is a decodable card's block, exactly as Encode
      writes it. */
  lemma DecodeCardSound(s: string)
    requires DecodeCard(s).Some?
    ensures Decodable(DecodeCard(s).value.0)
    ensures s == Encode(DecodeCard(s).value.0) + DecodeCard(s).value.1
  {
    var afterBegin := Expect(s, Begin).value;
    var fn := TakeLine(afterBegin).value;
    var afterTag := Expect(fn.1, TelTag).value;
    var tel := TakeLine(afterTag).value;
    var rest := Expect(tel.1, End).value;
    assert DecodeCard(s) == Some((Card(fn.0, tel.0), rest));
    Reassociate(Begin, fn.0, "\n", TelTag, tel.0, "\n", End, rest);
  }

  /** Decoding one block followed by more text reads that block's card first. */
  lemma DecodeBlock(c: Card, rest: string)
    requires Decodable(c)
    ensures Decode(Encode(c) + rest) == match Decode(rest)
                                         case None => None
                                         case Some(cs) => Some([c] + cs)
  {
    DecodeCardEncode(c, rest);
  }

  /** Every list of decodable cards survives encoding and decoding unchanged. */
  lemma {:induction false} DecodeEncodeAll(cs: seq<Card>)
    requires forall k :: 0 <= k < |cs| ==> Decodable(cs[k])
    ensures Decode(EncodeAll(cs)) == Some(cs)
    decreases |cs|
  {
    if |cs| > 0 {
      DecodeEncodeAll(cs[1..]);
      DecodeBlock(cs[0], EncodeAll(cs[1..]));
      assert [cs[0]] + cs[1..] == cs;
    }
  }

  /** Decode accepts nothing but what EncodeAll writes: whatever it reads back
      is a list of decodable cards whose encoding is the text itself. */
  lemma {:induction false} DecodeSound(s: string)
    requires Decode(s).Some?
    ensures forall k :: 0 <= k < |Decode(s).value| ==> Decodable(Decode(s).value[k])
    ensures EncodeAll(Decode(s).value) == s
    decreases |s|
  {
    if |s| > 0 {
      var p := DecodeCard(s).value;
      DecodeCardSound(s);
      DecodeSound(p.1);
      var cs := [p.0] + Decode(p.1).value;
      assert cs[1..] == Decode(p.1).value;
    }
  }

  /** Decoding inverts encoding, in both directions. */
  lemma DecodeIff(s: string, cs: seq<Card>)
    ensures Decode(s) == Some(cs) <==> (forall k :: 0 <= k < |cs| ==> Decodable(cs[k])) && EncodeAll(cs) == s
  {
    if Decode(s) == Some(cs) {
      DecodeSound(s);
    }
    if (forall k :: 0 <= k < |cs| ==> Decodable(cs[k])) && EncodeAll(cs) == s {
      DecodeEncodeAll(cs);
    }
  }
}
