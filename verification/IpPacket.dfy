/** DNS over IPv4 in the packet tunnel: classifying a packet, rewriting a query
    packet into its reply in place, and the Internet checksum of its header
    (section 1 of RFC 1071, section 3.1 of RFC 791). */
module IpPacket {
  import opened Text
  import opened Bytes

  newtype uint32 = x: int | 0 <= x < 0x1_0000_0000

  // ---------------------------------------------------------------------------
  // The checksum
  // ---------------------------------------------------------------------------

  /** The sum of the big-endian words of the data, the last one zero-padded. */
  function WordSum(data: seq<byte>): nat {
    if |data| == 0 then 0
    else if |data| == 1 then Word(data[0], 0)
    else Word(data[0], data[1]) + WordSum(data[2..])
  }

  /** End-around carry until the sum fits 16 bits. */
  function Fold(sum: nat): uint16
    decreases sum
  {
    if sum < 0x1_0000 then sum else Fold(sum % 0x1_0000 + sum / 0x1_0000)
  }

  function Checksum(data: seq<byte>): uint16 {
    0xFFFF - Fold(WordSum(data))
  }

  lemma {:induction false} WordSumBound(data: seq<byte>)
    ensures WordSum(data) <= (|data| + 1) / 2 * 0xFFFF
  {
    if |data| >= 2 {
      WordSumBound(data[2..]);
    }
  }

  /** The running sum, in 32-bit arithmetic. Any longer input could overflow it;
      the tunnel passes headers of at most 60 bytes. */
  method SumWords(data: seq<byte>) returns (sum: uint32)
    requires |data| <= 131074
    ensures sum as int == WordSum(data)
  {
    WordSumBound(data);
    sum := 0;
    var i := 0;
    while i < |data| - 1
      invariant 0 <= i <= |data| && i % 2 == 0
      invariant sum as int + WordSum(data[i..]) == WordSum(data)
    {
      assert data[i..][2..] == data[i + 2..];
      sum := sum + Word(data[i], data[i + 1]) as uint32;
      i := i + 2;
    }
    if |data| % 2 == 1 {
      assert data[i..] == [data[|data| - 1]];
      sum := sum + Word(data[|data| - 1], 0) as uint32;
    }
  }

  method CalculateIPChecksum(data: seq<byte>) returns (checksum: uint16)
    requires |data| <= 131074
    ensures checksum == Checksum(data)
  {
    var sum := SumWords(data);
    while sum / 0x1_0000 != 0
      invariant Fold(sum as int) == Fold(WordSum(data))
      decreases sum
    {
      sum := sum % 0x1_0000 + sum / 0x1_0000;
    }
    checksum := 0xFFFF - sum as int;
  }

  lemma ModShift(n: int, k: int)
    ensures (n - 0xFFFF * k) % 0xFFFF == n % 0xFFFF
  {
    var q := n / 0xFFFF;
    var r := n % 0xFFFF;
    assert n - 0xFFFF * k == 0xFFFF * (q - k) + r;
  }

  /** Folding is the residue modulo 65535, with 65535 for the positive multiples. */
  lemma {:induction false} FoldResidue(sum: nat)
    ensures Fold(sum) % 0xFFFF == sum % 0xFFFF
    ensures Fold(sum) == 0 <==> sum == 0
    decreases sum
  {
    if sum >= 0x1_0000 {
      var q := sum / 0x1_0000;
      var next := sum % 0x1_0000 + q;
      assert next == sum - 0xFFFF * q;
      ModShift(sum, q);
      FoldResidue(next);
    }
  }

  lemma {:induction false} WordSumUpdate(data: seq<byte>, k: nat, hi: byte, lo: byte)
    requires k % 2 == 0 && k + 1 < |data|
    ensures WordSum(data[k := hi][k + 1 := lo]) == WordSum(data) - Word(data[k], data[k + 1]) + Word(hi, lo)
    decreases |data|
  {
    var updated := data[k := hi][k + 1 := lo];
    if k == 0 {
      assert updated[2..] == data[2..];
    } else {
      WordSumUpdate(data[2..], k - 2, hi, lo);
      assert updated[2..] == data[2..][k - 2 := hi][k - 1 := lo];
    }
  }

  /** The header with its checksum field, as far as it reaches, taken as zero. */
  function Cleared(header: seq<byte>): (r: seq<byte>)
    ensures |r| == |header|
  {
    seq(|header|, i requires 0 <= i < |header| => if i == 10 || i == 11 then 0 else header[i])
  }

  lemma SumResidue(sum: nat, folded: uint16)
    requires folded % 0xFFFF == sum % 0xFFFF
    ensures (sum + (0xFFFF - folded)) % 0xFFFF == 0
  {
    var q := sum / 0xFFFF;
    var p := folded / 0xFFFF;
    assert sum + (0xFFFF - folded) == 0xFFFF * (q - p + 1);
  }

  lemma AllOnes(folded: uint16)
    requires folded % 0xFFFF == 0 && folded != 0
    ensures folded == 0xFFFF
  {}

  /** Adding the complement of a folded sum folds to all ones. */
  lemma ComplementFolds(sum: nat)
    ensures Fold(sum + (0xFFFF - Fold(sum))) == 0xFFFF
  {
    var folded := Fold(sum);
    FoldResidue(sum);
    SumResidue(sum, folded);
    FoldResidue(sum + (0xFFFF - folded));
    AllOnes(Fold(sum + (0xFFFF - folded)));
  }

  lemma ClearedSum(header: seq<byte>)
    requires |header| >= 20
    ensures WordSum(header) == WordSum(Cleared(header)) + Word(header[10], header[11])
  {
    WordSumUpdate(header, 10, 0, 0);
    assert Cleared(header) == header[10 := 0][11 := 0];
  }

  /** A header that carries the computed checksum verifies: its one's-complement
      sum is all ones. */
  lemma ChecksumVerifies(header: seq<byte>)
    requires |header| >= 20 && Word(header[10], header[11]) == Checksum(Cleared(header))
    ensures Fold(WordSum(header)) == 0xFFFF
  {
    ClearedSum(header);
    ComplementFolds(WordSum(Cleared(header)));
  }

  // ---------------------------------------------------------------------------
  // Classification
  // ---------------------------------------------------------------------------

  datatype Verdict = Ignored | Forwarded | DnsQuery(headerLength: nat)

  function HeaderLength(packet: seq<byte>): nat
    requires |packet| >= 1
  {
    packet[0] % 16 * 4
  }

  function Classify(packet: seq<byte>): Verdict {
    if |packet| < 28 then Ignored
    else if packet[0] / 16 != 4 then Ignored
    else
      var n := HeaderLength(packet);
      if |packet| < n + 8 then Ignored
      else if packet[9] != 17 then Ignored
      else if Word(packet[n + 2], packet[n + 3]) == 53 then DnsQuery(n)
      else Forwarded
  }

  // ---------------------------------------------------------------------------
  // The reply packet
  // ---------------------------------------------------------------------------

  /** The verdict, read off the bytes: version 4, both headers within the packet,
      protocol 17, and then the destination port. */
  lemma ClassifiedByBytes(packet: seq<byte>)
    ensures Classify(packet).Ignored? <==>
      !(|packet| >= 28 && packet[0] / 16 == 4 && |packet| >= packet[0] % 16 * 4 + 8 && packet[9] == 17)
    ensures !Classify(packet).Ignored? ==>
      var n := packet[0] % 16 * 4;
      Classify(packet) == if packet[n + 2] == 0 && packet[n + 3] == 53 then DnsQuery(n) else Forwarded
  {}

  /** What the classification checks of a packet before it hands it on. */
  predicate Framed(packet: seq<byte>) {
    |packet| >= 28 && |packet| >= HeaderLength(packet) + 8
  }

  /** A packet with a whole IPv4 header and a whole UDP header. The classification
      lets a header length field below the minimum through. */
  predicate HasHeaders(packet: seq<byte>) {
    Framed(packet) && HeaderLength(packet) >= 20
  }

  /** Where the reply takes its byte i from, in a packet with an n-byte header:
      the addresses change places, and so do the ports. */
  function Swapped(i: nat, n: nat): (k: nat)
    ensures i < n + 8 ==> k < 20 || k < n + 8
  {
    if n <= i < n + 2 then i + 2
    else if n + 2 <= i < n + 4 then i - 2
    else if 12 <= i < 16 then i + 4
    else if 16 <= i < 20 then i - 4
    else i
  }

  /** The two length fields and the header checksum, which are computed anew. */
  predicate IsComputed(i: nat, n: nat) {
    i in {2, 3, 10, 11, n + 4, n + 5}
  }

  /** Byte i of the reply, where it is not computed anew. */
  function Carried(query: seq<byte>, dns: seq<byte>, i: nat): byte
    requires Framed(query) && i < HeaderLength(query) + 8 + |dns|
  {
    var n := HeaderLength(query);
    if i < n + 8 then query[Swapped(i, n)] else dns[i - n - 8]
  }

  /** The length and checksum fields describe the packet they are in, whose header
      has n bytes. */
  predicate Describes(packet: seq<byte>, n: nat)
    requires |packet| >= 12 && |packet| >= n + 8
  {
    && Word(packet[2], packet[3]) == |packet|
    && Word(packet[n + 4], packet[n + 5]) == |packet| - n
    && Word(packet[10], packet[11]) == Checksum(Cleared(packet[..n]))
  }

  predicate Consistent(packet: seq<byte>)
    requires Framed(packet)
  {
    Describes(packet, HeaderLength(packet))
  }

  function Payload(packet: seq<byte>): seq<byte>
    requires Framed(packet)
  {
    packet[HeaderLength(packet) + 8..]
  }

  /** The reply reaches the checksum field, and its length fits 16 bits. */
  predicate Fits(query: seq<byte>, dns: seq<byte>)
    requires Framed(query)
  {
    12 <= HeaderLength(query) + 8 + |dns| < 0x1_0000
  }

  predicate IsReply(query: seq<byte>, dns: seq<byte>, reply: seq<byte>)
    requires Framed(query)
  {
    var n := HeaderLength(query);
    && Fits(query, dns) && |reply| == n + 8 + |dns|
    && (forall i :: 0 <= i < |reply| && !IsComputed(i, n) ==> reply[i] == Carried(query, dns, i))
    && Describes(reply, n)
  }

  /** Two adjacent fields of width w change places; the rest is as in current. */
  method SwapFields(packet: seq<byte>, current: seq<byte>, lo: nat, w: nat) returns (response: seq<byte>)
    requires lo + 2 * w <= |packet| == |current|
    ensures |response| == |packet|
    ensures forall i {:trigger response[i]} :: 0 <= i < |packet| ==>
      response[i] == if lo <= i < lo + w then packet[i + w]
                     else if lo + w <= i < lo + 2 * w then packet[i - w]
                     else current[i]
  {
    var source, destination := packet[lo..lo + w], packet[lo + w..lo + 2 * w];
    response := Replace(current, lo, lo + w, destination);
    ghost var half := response;
    forall i | 0 <= i < |packet|
      ensures half[i] == if lo <= i < lo + w then packet[i + w] else current[i]
    {
      ReplaceAt(current, lo, destination, i);
    }
    response := Replace(response, lo + w, lo + 2 * w, source);
    forall i | 0 <= i < |packet|
      ensures response[i] == if lo + w <= i < lo + 2 * w then packet[i - w] else half[i]
    {
      ReplaceAt(half, lo + w, source, i);
    }
  }

  /** The address and port swaps and the new payload. */
  method SwapAndFill(packet: seq<byte>, dns: seq<byte>) returns (response: seq<byte>)
    requires Framed(packet)
    ensures |response| == HeaderLength(packet) + 8 + |dns|
    ensures forall i :: 0 <= i < |response| ==> response[i] == Carried(packet, dns, i)
  {
    var n := HeaderLength(packet);
    response := SwapFields(packet, packet, 12, 4);
    response := SwapFields(packet, response, n, 2);
    ghost var swapped := response;
    response := Replace(response, n + 8, |response|, dns);
    assert response == swapped[..n + 8] + dns;
  }

  /** The two length fields of a packet with an n-byte header. */
  method SetLengths(packet: seq<byte>, n: nat) returns (response: seq<byte>)
    requires n + 8 <= |packet| < 0x1_0000
    ensures |response| == |packet|
    ensures Word(response[2], response[3]) == |packet| && Word(response[n + 4], response[n + 5]) == |packet| - n
    ensures forall i :: 0 <= i < |packet| && i !in {2, 3, n + 4, n + 5} ==> response[i] == packet[i]
  {
    var udpLength: uint16 := |packet| - n;
    response := packet[n + 4 := High(udpLength)];
    response := response[n + 5 := Low(udpLength)];
    var totalLength: uint16 := |packet|;
    response := response[2 := High(totalLength)];
    response := response[3 := Low(totalLength)];
    WordBytes(response[2], response[3], totalLength);
    WordBytes(response[n + 4], response[n + 5], udpLength);
  }

  method SetChecksum(packet: seq<byte>, n: nat) returns (response: seq<byte>)
    requires 12 <= |packet| && n <= |packet| && n <= 60
    ensures |response| == |packet|
    ensures Word(response[10], response[11]) == Checksum(Cleared(response[..n]))
    ensures forall i :: 0 <= i < |packet| && i != 10 && i != 11 ==> response[i] == packet[i]
  {
    response := packet[10 := 0];
    response := response[11 := 0];
    ghost var cleared := response[0..n];
    var checksum := CalculateIPChecksum(response[0..n]);
    response := response[10 := High(checksum)];
    response := response[11 := Low(checksum)];
    assert Cleared(response[..n]) == cleared;
    WordBytes(response[10], response[11], checksum);
  }

  /** The whole rewriting; None where the conversion to 16 bits traps, or the reply
      is too short to have a checksum field. */
  method BuildDNSResponsePacket(packet: seq<byte>, dns: seq<byte>) returns (reply: Option<seq<byte>>)
    requires Framed(packet)
    ensures reply.Some? <==> Fits(packet, dns)
    ensures reply.Some? ==> IsReply(packet, dns, reply.value)
    ensures reply.Some? && HasHeaders(packet) ==> Fold(WordSum(reply.value[..HeaderLength(packet)])) == 0xFFFF
  {
    var n := HeaderLength(packet);
    var response := SwapAndFill(packet, dns);
    if |response| >= 0x1_0000 || |response| < 12 {
      return None;
    }
    response := SetLengths(response, n);
    response := SetChecksum(response, n);
    if n >= 20 {
      ChecksumVerifies(response[..n]);
    }
    return Some(response);
  }

  /** The parts of the reply to a packet with a whole header. */
  lemma ReplyParts(query: seq<byte>, dns: seq<byte>, reply: seq<byte>)
    requires HasHeaders(query) && IsReply(query, dns, reply)
    ensures reply[0] == query[0] && Framed(reply) && Payload(reply) == dns && Consistent(reply)
    ensures var n := HeaderLength(query);
            forall i :: 0 <= i < n + 8 && !IsComputed(i, n) ==> reply[i] == query[Swapped(i, n)]
  {
    assert reply[0] == Carried(query, dns, 0);
    assert Payload(reply) == dns;
  }

  /** The header and port fields of a reply. The UDP checksum is carried over
      unchanged. */
  lemma ReplyFields(query: seq<byte>, dns: seq<byte>, reply: seq<byte>)
    requires HasHeaders(query) && IsReply(query, dns, reply)
    ensures reply[12..16] == query[16..20] && reply[16..20] == query[12..16]
    ensures var n := HeaderLength(query);
            && reply[n..n + 2] == query[n + 2..n + 4] && reply[n + 2..n + 4] == query[n..n + 2]
            && reply[n + 6..n + 8] == query[n + 6..n + 8] && reply[20..n] == query[20..n]
  {
    ReplyParts(query, dns, reply);
  }

  lemma SameCleared(a: seq<byte>, b: seq<byte>)
    requires |a| == |b| && forall i :: 0 <= i < |a| && i != 10 && i != 11 ==> a[i] == b[i]
    ensures Cleared(a) == Cleared(b)
  {}

  /** Two packets of one length whose computed fields describe them, and which agree
      elsewhere, agree. */
  lemma SameParts(a: seq<byte>, b: seq<byte>, n: nat)
    requires |a| == |b| && |a| >= 12 && |a| >= n + 8
    requires forall i :: 0 <= i < |a| && !IsComputed(i, n) ==> a[i] == b[i]
    requires Describes(a, n) && Describes(b, n)
    ensures a == b
  {
    assert |a| < 0x1_0000;
    WordBytes(a[2], a[3], |a|);
    WordBytes(b[2], b[3], |a|);
    WordBytes(a[n + 4], a[n + 5], |a| - n);
    WordBytes(b[n + 4], b[n + 5], |a| - n);
    SameCleared(a[..n], b[..n]);
    var checksum := Checksum(Cleared(a[..n]));
    WordBytes(a[10], a[11], checksum);
    WordBytes(b[10], b[11], checksum);
  }

  /** The reply is determined byte for byte by the query and the DNS message. */
  lemma ReplyUnique(query: seq<byte>, dns: seq<byte>, a: seq<byte>, b: seq<byte>)
    requires Framed(query) && IsReply(query, dns, a) && IsReply(query, dns, b)
    ensures a == b
  {
    SameParts(a, b, HeaderLength(query));
  }

  /** Replying to the reply with the original payload gives the original packet
      back, byte for byte, exactly when that packet's own length and checksum
      fields were consistent. */
  lemma ReplyOfReply(query: seq<byte>, dns: seq<byte>, reply: seq<byte>, back: seq<byte>)
    requires HasHeaders(query) && IsReply(query, dns, reply)
    requires Framed(reply) && IsReply(reply, Payload(query), back)
    ensures back == query <==> Consistent(query)
  {
    ReplyParts(query, dns, reply);
    var n := HeaderLength(query);
    if Consistent(query) {
      forall i | 0 <= i < |query| && !IsComputed(i, n)
        ensures back[i] == query[i]
      {
        assert back[i] == Carried(reply, Payload(query), i);
        if i < n + 8 {
          assert Swapped(Swapped(i, n), n) == i && !IsComputed(Swapped(i, n), n);
        }
      }
      SameParts(back, query, n);
    }
  }

  /** A reply is never taken for a query, unless the client's own port was 53. */
  lemma ReplyClassified(query: seq<byte>, dns: seq<byte>, reply: seq<byte>)
    requires Classify(query).DnsQuery? && HasHeaders(query) && IsReply(query, dns, reply)
    ensures var n := HeaderLength(query);
            Classify(reply) == if Word(query[n], query[n + 1]) == 53 then DnsQuery(n) else Forwarded
  {
    ReplyParts(query, dns, reply);
  }

  // ---------------------------------------------------------------------------
  // Header length fields below the minimum
  // ---------------------------------------------------------------------------

  /** The addresses of the reply are those of the query, exchanged. */
  predicate ReturnsToSender(query: seq<byte>, reply: seq<byte>)
    requires Framed(query)
  {
    |reply| >= 20 && reply[12..16] == query[16..20] && reply[16..20] == query[12..16]
  }

  function WithLengths(query: seq<byte>, dns: seq<byte>): (r: seq<byte>)
    requires Framed(query) && Fits(query, dns)
    ensures |r| == HeaderLength(query) + 8 + |dns|
  {
    var n := HeaderLength(query);
    seq(n + 8 + |dns|, i requires 0 <= i < n + 8 + |dns| => Carried(query, dns, i))
      [n + 4 := High(8 + |dns|)][n + 5 := Low(8 + |dns|)][2 := High(n + 8 + |dns|)][3 := Low(n + 8 + |dns|)]
  }

  /** The reply as a value. */
  function Reply(query: seq<byte>, dns: seq<byte>): seq<byte>
    requires Framed(query) && Fits(query, dns)
  {
    var checksum := Checksum(Cleared(WithLengths(query, dns)[..HeaderLength(query)]));
    WithLengths(query, dns)[10 := High(checksum)][11 := Low(checksum)]
  }

  lemma ReplyExists(query: seq<byte>, dns: seq<byte>)
    requires Framed(query) && Fits(query, dns)
    ensures IsReply(query, dns, Reply(query, dns))
  {
    var n := HeaderLength(query);
    var reply := Reply(query, dns);
    SameCleared(reply[..n], WithLengths(query, dns)[..n]);
    WordBytes(reply[2], reply[3], n + 8 + |dns|);
    WordBytes(reply[n + 4], reply[n + 5], 8 + |dns|);
    WordBytes(reply[10], reply[11], Checksum(Cleared(WithLengths(query, dns)[..n])));
  }

  /** A UDP packet for port 53 with header length n, its bytes counting up otherwise. */
  function Counting(n: nat): (r: seq<byte>)
    requires n % 4 == 0 && n <= 60
    ensures |r| == 68 && r[0] == 0x40 + n / 4
    ensures forall i :: 1 <= i < 68 && i !in {9, n + 2, n + 3} ==> r[i] == i
    ensures Classify(r) == DnsQuery(n)
  {
    seq(68, i => if i == 0 then 0x40 + n / 4 else if 0 <= i < 68 then i else 0)[9 := 17][n + 2 := 0][n + 3 := 53]
  }

  /** A DNS message of twelve bytes. */
  const ONES: seq<byte> := seq(12, _ => 0xFF)

  lemma ShortHeaderMisaddresses(n: nat)
    requires n % 4 == 0 && n < 20
    ensures var query := Counting(n);
            Framed(query) && Fits(query, ONES) && !ReturnsToSender(query, Reply(query, ONES))
  {
    var query := Counting(n);
    var reply := Reply(query, ONES);
    if n == 16 {
      assert reply[17] == Carried(query, ONES, 17) == query[19];
      assert reply[16..20][1] == reply[17] && query[12..16][1] == query[13];
    } else {
      assert reply[12..16][0] == reply[12] && reply[12..16][2] == reply[14];
      assert query[16..20][0] == query[16] && query[16..20][2] == query[18];
    }
  }

  /** The reply to a DNS query with an n-byte header always goes back to the sender if
      and only if n is at least the 20 bytes of a whole header. */
  lemma AddressedExactly(n: nat)
    requires n % 4 == 0 && n <= 60
    ensures (forall query, dns, reply ::
              Classify(query) == DnsQuery(n) && IsReply(query, dns, reply) ==> ReturnsToSender(query, reply))
            <==> n >= 20
  {
    if n >= 20 {
      forall query, dns, reply | Classify(query) == DnsQuery(n) && IsReply(query, dns, reply)
        ensures ReturnsToSender(query, reply)
      {
        ReplyFields(query, dns, reply);
      }
    } else {
      ShortHeaderMisaddresses(n);
      ReplyExists(Counting(n), ONES);
    }
  }
}
