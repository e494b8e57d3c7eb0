/** DNS messages in the tunnel's proxy: the queried name (section 4.1.2 of
    RFC 1035) and the NXDOMAIN answer. */
module DnsName {
  import opened Text
  import opened Bytes

  /** Decoding a label to text; None where the bytes are not valid UTF-8. */
  type Decoder = seq<byte> -> Option<string>

  const HEADER: nat := 12

  // ---------------------------------------------------------------------------
  // Parsing
  // ---------------------------------------------------------------------------

  /** The raw labels from offset on. None when a label runs past the end; a name
      that the data cuts off between labels is accepted as it stands. */
  function RawLabels(data: seq<byte>, offset: nat): (r: Option<seq<seq<byte>>>)
    requires offset <= |data|
    decreases |data| - offset
  {
    if offset == |data| || data[offset] == 0 then Some([])
    else if offset + 1 + data[offset] > |data| then None
    else
      match RawLabels(data, offset + 1 + data[offset])
      case None => None
      case Some(labels) => Some([data[offset + 1..offset + 1 + data[offset]]] + labels)
  }

  /** Labels that do not decode are skipped. */
  function Decoded(labels: seq<seq<byte>>, decode: Decoder): seq<string> {
    if labels == [] then []
    else
      (match decode(labels[0])
       case Some(text) => [text]
       case None => [])
      + Decoded(labels[1..], decode)
  }

  function QueryName(data: seq<byte>, decode: Decoder): Option<string> {
    if |data| < HEADER then None
    else
      match RawLabels(data, HEADER)
      case None => None
      case Some(labels) => if Decoded(labels, decode) == [] then None else Some(Join(Decoded(labels, decode), '.'))
  }

  /** The text labels found so far, followed by those from offset on. */
  function NameParts(found: seq<string>, data: seq<byte>, offset: nat, decode: Decoder): Option<seq<string>>
    requires offset <= |data|
  {
    match RawLabels(data, offset)
    case None => None
    case Some(labels) => Some(found + Decoded(labels, decode))
  }

  lemma NamePartsStep(found: seq<string>, data: seq<byte>, offset: nat, decode: Decoder)
    requires offset < |data| && data[offset] != 0 && offset + 1 + data[offset] <= |data|
    ensures var next := offset + 1 + data[offset];
            var text := decode(data[offset + 1..next]);
            NameParts(found, data, offset, decode)
            == NameParts(if text.Some? then found + [text.value] else found, data, next, decode)
  {
    var next := offset + 1 + data[offset];
    var rest := RawLabels(data, next);
    if rest.Some? {
      var first := data[offset + 1..next];
      assert ([first] + rest.value)[1..] == rest.value;
      var text := decode(first);
      if text.Some? {
        assert found + ([text.value] + Decoded(rest.value, decode))
               == found + [text.value] + Decoded(rest.value, decode);
      } else {
        assert [] + Decoded(rest.value, decode) == Decoded(rest.value, decode);
      }
    }
  }

  method ParseDNSQuery(data: seq<byte>, decode: Decoder) returns (domain: Option<string>)
    ensures domain == QueryName(data, decode)
  {
    if |data| < 12 {
      return None;
    }
    var offset := 12;
    var domainParts: seq<string> := [];
    while offset < |data|
      invariant 12 <= offset <= |data|
      invariant NameParts([], data, HEADER, decode) == NameParts(domainParts, data, offset, decode)
    {
      var length := data[offset];
      if length == 0 {
        break;
      }
      NamePartsEnd(domainParts, data, offset, decode);
      offset := offset + 1;
      if offset + length > |data| {
        return None;
      }
      NamePartsStep(domainParts, data, offset - 1, decode);
      var part := data[offset..offset + length];
      var text := decode(part);
      if text.Some? {
        domainParts := domainParts + [text.value];
      }
      offset := offset + length;
    }
    NamePartsEnd(domainParts, data, offset, decode);
    return if domainParts == [] then None else Some(Join(domainParts, '.'));
  }

  lemma NamePartsEnd(found: seq<string>, data: seq<byte>, offset: nat, decode: Decoder)
    requires HEADER <= offset <= |data| && NameParts([], data, HEADER, decode) == NameParts(found, data, offset, decode)
    ensures offset == |data| || data[offset] == 0 ==>
      QueryName(data, decode) == if found == [] then None else Some(Join(found, '.'))
    ensures offset < |data| && data[offset] != 0 && offset + 1 + data[offset] > |data| ==>
            QueryName(data, decode) == None
  {
    assert found + [] == found;
    var all := RawLabels(data, HEADER);
    if all.Some? {
      assert [] + Decoded(all.value, decode) == Decoded(all.value, decode);
    }
  }

  // ---------------------------------------------------------------------------
  // Round trip
  // ---------------------------------------------------------------------------

  /** A label the wire format can carry in one length byte. */
  predicate IsLabel(bytes: seq<byte>) {
    0 < |bytes| < 0x100
  }

  function Encode(labels: seq<seq<byte>>): seq<byte>
    requires forall i :: 0 <= i < |labels| ==> IsLabel(labels[i])
  {
    if labels == [] then []
    else assert IsLabel(labels[0]); [|labels[0]| as byte] + labels[0] + Encode(labels[1..])
  }

  lemma {:induction false} RawLabelsOfEncoded(before: seq<byte>, labels: seq<seq<byte>>, tail: seq<byte>)
    requires forall i :: 0 <= i < |labels| ==> IsLabel(labels[i])
    ensures RawLabels(before + Encode(labels) + [0] + tail, |before|) == Some(labels)
    decreases |labels|
  {
    var data := before + Encode(labels) + [0] + tail;
    if labels == [] {
      assert data[|before|] == 0;
    } else {
      assert IsLabel(labels[0]);
      var size: byte := |labels[0]|;
      var next := before + [size] + labels[0];
      assert Encode(labels) == [size] + labels[0] + Encode(labels[1..]);
      RawLabelsOfEncoded(next, labels[1..], tail);
      assert data == next + Encode(labels[1..]) + [0] + tail;
      assert data[|before|] == size;
      assert data[|before| + 1..|before| + 1 + size] == labels[0];
      assert [labels[0]] + labels[1..] == labels;
    }
  }

  predicate IsAscii(bytes: seq<byte>) {
    forall i :: 0 <= i < |bytes| ==> bytes[i] < 0x80
  }

  function AsciiText(bytes: seq<byte>): string
    requires IsAscii(bytes)
  {
    seq(|bytes|, i requires 0 <= i < |bytes| => bytes[i] as char)
  }

  function AsciiTexts(labels: seq<seq<byte>>): (r: seq<string>)
    requires forall i :: 0 <= i < |labels| ==> IsAscii(labels[i])
    ensures |r| == |labels|
  {
    seq(|labels|, i requires 0 <= i < |labels| => AsciiText(labels[i]))
  }

  /** A UTF-8 decoder reads ASCII as it stands. */
  ghost predicate ReadsAscii(decode: Decoder) {
    forall bytes :: IsAscii(bytes) ==> decode(bytes) == Some(AsciiText(bytes))
  }

  /** ASCII is the bytes below 128, each read as the character of its code. */
  lemma AsciiMeaning(bytes: seq<byte>, decode: Decoder)
    requires ReadsAscii(decode)
    ensures IsAscii(bytes) <==> forall b :: b in bytes ==> b < 128
    ensures (forall b :: b in bytes ==> b < 128) ==>
              && decode(bytes).Some? && |decode(bytes).value| == |bytes|
              && forall i :: 0 <= i < |bytes| ==> decode(bytes).value[i] == bytes[i] as char
  {
    assert forall i :: 0 <= i < |bytes| ==> bytes[i] in bytes;
  }

  lemma {:induction false} DecodedAscii(labels: seq<seq<byte>>, decode: Decoder)
    requires ReadsAscii(decode) && forall i :: 0 <= i < |labels| ==> IsAscii(labels[i])
    ensures Decoded(labels, decode) == AsciiTexts(labels)
  {
    if labels != [] {
      DecodedAscii(labels[1..], decode);
      assert AsciiTexts(labels) == [AsciiText(labels[0])] + AsciiTexts(labels[1..]);
    }
  }

  /** A question for any non-empty list of ASCII labels parses to the labels
      joined by dots, whatever follows the name. */
  lemma QueryNameRoundTrip(header: seq<byte>, labels: seq<seq<byte>>, tail: seq<byte>, decode: Decoder)
    requires |header| == HEADER && labels != [] && ReadsAscii(decode)
    requires forall i :: 0 <= i < |labels| ==> IsLabel(labels[i]) && IsAscii(labels[i])
    ensures QueryName(header + Encode(labels) + [0] + tail, decode) == Some(Join(AsciiTexts(labels), '.'))
  {
    RawLabelsOfEncoded(header, labels, tail);
    DecodedAscii(labels, decode);
  }

  /** The name tells dot-free label lists apart. */
  lemma NameDeterminesLabels(a: seq<string>, b: seq<string>)
    requires a != [] && b != []
    requires forall i :: 0 <= i < |a| ==> '.' !in a[i]
    requires forall i :: 0 <= i < |b| ==> '.' !in b[i]
    ensures Join(a, '.') == Join(b, '.') <==> a == b
  {
    SplitJoin(a, '.');
    SplitJoin(b, '.');
  }

  // ---------------------------------------------------------------------------
  // The NXDOMAIN answer
  // ---------------------------------------------------------------------------

  /** The answer: identifier, question count and everything from byte 12 on are
      those of the query; the flags say NXDOMAIN; the other counts are zero. */
  predicate IsNXDomain(query: seq<byte>, response: seq<byte>) {
    && |response| == |query|
    && (|query| >= 4 ==> response[2] == 0x81 && response[3] == 0x83)
    && (forall i :: 0 <= i < |query| && i != 2 && i != 3 && !(|query| >= HEADER && 6 <= i < HEADER) ==>
          response[i] == query[i])
    && (forall i :: |query| >= HEADER && 6 <= i < HEADER ==> response[i] == 0)
    && (|query| < 4 ==> response == query)
  }

  method CreateNXDomainResponse(query: seq<byte>) returns (response: seq<byte>)
    ensures IsNXDomain(query, response)
    ensures |query| < 4 ==> response == query
    ensures 4 <= |query| < 12 ==> response == query[..2] + [0x81, 0x83] + query[4..]
    ensures |query| >= 12 ==> response == query[..2] + [0x81, 0x83] + query[4..6] + [0, 0, 0, 0, 0, 0] + query[12..]
  {
    response := query;
    if |response| >= 4 {
      response := response[2 := 0x81];
      response := response[3 := 0x83];
    }
    if |response| >= 12 {
      response := response[6 := 0];
      response := response[7 := 0];
      response := response[8 := 0];
      response := response[9 := 0];
      response := response[10 := 0];
      response := response[11 := 0];
    }
  }

  /** The answer byte for byte. */
  lemma NXDomainExactly(query: seq<byte>, response: seq<byte>)
    ensures IsNXDomain(query, response)
       <==> response == if |query| < 4 then query
                        else if |query| < 12 then query[..2] + [0x81, 0x83] + query[4..]
                        else query[..2] + [0x81, 0x83] + query[4..6] + [0, 0, 0, 0, 0, 0] + query[12..]
  {}

  lemma {:induction false} RawLabelsAgree(a: seq<byte>, b: seq<byte>, offset: nat)
    requires |a| == |b| && offset <= |a| && forall i :: offset <= i < |a| ==> a[i] == b[i]
    ensures RawLabels(a, offset) == RawLabels(b, offset)
    decreases |a| - offset
  {
    if offset < |a| && a[offset] != 0 && offset + 1 + a[offset] <= |a| {
      RawLabelsAgree(a, b, offset + 1 + a[offset]);
      assert a[offset + 1..offset + 1 + a[offset]] == b[offset + 1..offset + 1 + a[offset]];
    }
  }

  /** The client finds in the answer the question it asked: the same identifier,
      question count and name, and a repeated answer is the same answer. */
  lemma NXDomainEchoesQuestion(query: seq<byte>, response: seq<byte>, again: seq<byte>, decode: Decoder)
    requires |query| >= HEADER && IsNXDomain(query, response) && IsNXDomain(response, again)
    ensures QueryName(response, decode) == QueryName(query, decode)
    ensures response[..2] == query[..2] && response[4..6] == query[4..6] && response[HEADER..] == query[HEADER..]
    ensures again == response
  {
    RawLabelsAgree(query, response, HEADER);
  }
}
