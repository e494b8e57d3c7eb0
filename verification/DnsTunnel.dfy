/** The path of one packet through the tunnel: classified, its question parsed,
    the blocklist asked, and the answer, the proxy's own or the upstream server's,
    wrapped into a reply packet. */
module DnsTunnel {
  import opened Text
  import opened Bytes
  import opened IpPacket
  import opened DnsName
  import B = Blocklist

  /** Written packets go back to the device. Trapped: a reply whose length does not
      fit 16 bits, or that is too short to have a checksum field. */
  datatype Action = Dropped | Written(packet: seq<byte>) | Trapped

  /** The datagram that the upstream server sends to a query, if one comes. */
  type Exchange = seq<byte> -> Option<seq<byte>>

  const RECEIVE_BUFFER: nat := 512

  /** A longer datagram is cut off at the buffer, an empty one counts as none. */
  function Received(datagram: Option<seq<byte>>): Option<seq<byte>> {
    match datagram
    case None => None
    case Some(bytes) =>
      if bytes == [] then None
      else if |bytes| > RECEIVE_BUFFER then Some(bytes[..RECEIVE_BUFFER])
      else datagram
  }

  predicate NameBlocked(query: seq<byte>, c: B.Cache, h: B.Hash, decode: Decoder) {
    var name := QueryName(query, decode);
    name.Some? && B.CacheBlocks(c, name.value, h)
  }

  /** A reply to the packet that carries the NXDOMAIN answer to its question. */
  ghost predicate AnswersNXDomain(packet: seq<byte>, answer: seq<byte>)
    requires Framed(packet)
  {
    exists dns :: IsReply(packet, dns, answer) && IsNXDomain(Payload(packet), dns)
  }

  method ForwardToUpstream(query: seq<byte>, exchange: Exchange) returns (response: Option<seq<byte>>)
    ensures response == Received(exchange(query))
    ensures response.Some? ==> 0 < |response.value| <= RECEIVE_BUFFER
  {
    var datagram := exchange(query);
    if datagram.None? || |datagram.value| == 0 {
      return None;
    }
    var n := if |datagram.value| < RECEIVE_BUFFER then |datagram.value| else RECEIVE_BUFFER;
    assert datagram.value[0..|datagram.value|] == datagram.value;
    return Some(datagram.value[0..n]);
  }

  /** The proxy's completion: the response, and the query it sent on, if it did. A
      blocked question never leaves the device. */
  method HandleDNSQuery(query: seq<byte>, running: bool, cache: B.BlocklistCache, decode: Decoder, exchange: Exchange)
    returns (response: Option<seq<byte>>, sent: Option<seq<byte>>)
    ensures !running ==> response == None && sent == None
    ensures running && NameBlocked(query, cache.Contents(), cache.h, decode) ==>
      response.Some? && IsNXDomain(query, response.value) && sent == None
    ensures running && !NameBlocked(query, cache.Contents(), cache.h, decode) ==>
      response == Received(exchange(query)) && sent == Some(query)
  {
    if !running {
      return None, None;
    }
    var domain := ParseDNSQuery(query, decode);
    if domain.None? {
      response := ForwardToUpstream(query, exchange);
      return response, Some(query);
    }
    var blocked, rule := cache.ShouldBlock(domain.value);
    if blocked {
      var answer := CreateNXDomainResponse(query);
      return Some(answer), None;
    }
    response := ForwardToUpstream(query, exchange);
    sent := Some(query);
  }

  /** Every packet, whatever its bytes. */
  method ProcessPacket(packet: seq<byte>, running: bool, cache: B.BlocklistCache, decode: Decoder, exchange: Exchange)
    returns (action: Action, sent: Option<seq<byte>>)
    ensures |packet| < 28 || packet[0] / 16 != 4 || |packet| < packet[0] % 16 * 4 + 8 || packet[9] != 17 ==>
      action == Dropped && sent == None
    ensures |packet| >= 28 && packet[0] / 16 == 4 && |packet| >= packet[0] % 16 * 4 + 8 && packet[9] == 17 ==>
      var n := packet[0] % 16 * 4;
      if packet[n + 2] == 0 && packet[n + 3] == 53 then Classify(packet) == DnsQuery(n)
      else action == Written(packet) && sent == None
    ensures Classify(packet).DnsQuery? ==> Framed(packet)
    ensures Classify(packet).DnsQuery? && (Payload(packet) == [] || !running) ==> action == Dropped && sent == None
    ensures Classify(packet).DnsQuery? && Payload(packet) != [] && running ==>
      if NameBlocked(Payload(packet), cache.Contents(), cache.h, decode)
      then sent == None
           && (if |packet| < 0x1_0000 then action.Written? && AnswersNXDomain(packet, action.packet)
               else action == Trapped)
      else sent == Some(Payload(packet)) && Relays(packet, Received(exchange(Payload(packet))), action)
  {
    if |packet| < 28 || packet[0] / 16 != 4 {
      return Dropped, None;
    }
    var n := packet[0] % 16 * 4;
    if |packet| < n + 8 || packet[9] != 17 {
      return Dropped, None;
    }
    if Word(packet[n + 2], packet[n + 3]) != 53 {
      return Written(packet), None;
    }
    if |packet| <= n + 8 {
      return Dropped, None;
    }
    var query := packet[n + 8..|packet|];
    assert query == Payload(packet);
    var response;
    response, sent := HandleDNSQuery(query, running, cache, decode, exchange);
    if response.None? {
      return Dropped, sent;
    }
    var reply := BuildDNSResponsePacket(packet, response.value);
    action := if reply.None? then Trapped else Written(reply.value);
  }

  /** What becomes of the upstream server's response. */
  predicate Relays(packet: seq<byte>, response: Option<seq<byte>>, action: Action)
    requires Framed(packet)
  {
    match response
    case None => action == Dropped
    case Some(dns) =>
      if Fits(packet, dns) then action.Written? && IsReply(packet, dns, action.packet) else action == Trapped
  }

  /** The receive buffer keeps relayed replies within 16 bits: only a packet without
      any header and a response of three bytes or fewer can trap. */
  lemma RelayTrapsExactly(packet: seq<byte>, datagram: Option<seq<byte>>, action: Action)
    requires Framed(packet) && Relays(packet, Received(datagram), action)
    ensures action == Trapped <==> datagram.Some? && 0 < |datagram.value| < 4 && HeaderLength(packet) == 0
  {}

  /** What the device sees of a blocked lookup: the answer has its own identifier,
      question count and name, comes from the server it asked, and is not taken
      for a query if it passes through the tunnel again. */
  lemma AnswerFitsQuestion(query: seq<byte>, answer: seq<byte>, decode: Decoder)
    requires Classify(query).DnsQuery? && HasHeaders(query) && AnswersNXDomain(query, answer)
             && |Payload(query)| >= HEADER
    ensures |answer| == |query| && Framed(answer)
    ensures QueryName(Payload(answer), decode) == QueryName(Payload(query), decode)
    ensures Payload(answer)[..2] == Payload(query)[..2] && Payload(answer)[4..6] == Payload(query)[4..6]
    ensures answer[12..16] == query[16..20] && answer[16..20] == query[12..16]
    ensures Word(query[HeaderLength(query)], query[HeaderLength(query) + 1]) != 53 ==> Classify(answer) == Forwarded
  {
    var dns :| IsReply(query, dns, answer) && IsNXDomain(Payload(query), dns);
    ReplyParts(query, dns, answer);
    ReplyFields(query, dns, answer);
    ReplyClassified(query, dns, answer);
    assert IsNXDomain(dns, dns);
    NXDomainEchoesQuestion(Payload(query), dns, dns, decode);
  }

  /** From the wire to the table: a question for any list of ASCII labels, after any
      run of updates that settles the cache and any further run of this process, over
      a table without wildcard rules, is blocked exactly when the dotted name is not
      allowlisted and the table has a row for it. */
  lemma TunnelDecidesByTable(packet: seq<byte>, header: seq<byte>, labels: seq<seq<byte>>, tail: seq<byte>,
                             decode: Decoder, rows: map<string, B.Row>, allow: set<string>, now: nat,
                             steps: seq<B.Step>, more: seq<B.Step>, h: B.Hash)
    requires Framed(packet) && |header| == HEADER && labels != [] && ReadsAscii(decode)
    requires forall i :: 0 <= i < |labels| ==> IsLabel(labels[i]) && IsAscii(labels[i])
    requires Payload(packet) == header + Encode(labels) + [0] + tail
    requires B.Settled(B.Exec(B.Opened(rows, allow, now), steps, h)) && B.NoForeign(more)
    requires B.NoWildcards(B.Exec(B.Exec(B.Opened(rows, allow, now), steps, h), more, h))
    ensures var c := B.Exec(B.Exec(B.Opened(rows, allow, now), steps, h), more, h);
            var name := Join(AsciiTexts(labels), '.');
            NameBlocked(Payload(packet), c, h, decode) <==> !B.Allowlisted(c, name) && B.ExactRows(c, name) != {}
  {
    QueryNameRoundTrip(header, labels, tail, decode);
    B.FilterRefinesTable(rows, allow, now, steps, more, h, Join(AsciiTexts(labels), '.'));
  }
}
