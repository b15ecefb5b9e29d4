/** The text both servers of kmb.py send back to a peer: its address and port
    joined by a colon (kmb.py:69 and kmb.py:94). */
module Reply {
  import opened Errors
  import opened Decimal

  /** A peer as `accept` or `recvfrom` report it: an IPv4 literal and a port. */
  datatype Endpoint = Endpoint(ip: string, port: nat)

  /** A datagram with the endpoint it came from or goes to. */
  datatype Datagram = Datagram(payload: string, peer: Endpoint)

  /** `str(client_address[0]) + ':' + str(client_address[1])`: the text the
      TCP server writes on each accepted connection (kmb.py:67-72) and the UDP
      server sends back (kmb.py:91-96). It is the ip, a colon, and the decimal
      text of the port with no superfluous leading zero, and nothing else. */
  function Answer(peer: Endpoint): (reply: string)
    ensures |reply| > |peer.ip| + 1
    ensures reply[..|peer.ip|] == peer.ip && reply[|peer.ip|] == ':'
    ensures Canonical(reply[|peer.ip| + 1..])
    ensures ParseDigits(reply[|peer.ip| + 1..]) == peer.port
  {
    var reply := peer.ip + ":" + ShowNat(peer.port);
    assert reply[|peer.ip| + 1..] == ShowNat(peer.port);
    ParseShowNat(peer.port);
    reply
  }

  /** One pass of the UDP server loop (kmb.py:91-96): the datagram sent back.
      It goes to the sender and its text is the answer for the sender; what the
      sender sent is not looked at. */
  function ServeDatagram(request: Datagram): (reply: Datagram)
    ensures reply.peer == request.peer
    ensures reply.payload == Answer(request.peer)
  {
    Datagram(Answer(request.peer), request.peer)
  }

  /** The text after the colon of an answer is exactly `str(port)`. */
  lemma AnswerPortIsStr(peer: Endpoint)
    ensures Answer(peer)[|peer.ip| + 1..] == ShowNat(peer.port)
  {
    var digits := Answer(peer)[|peer.ip| + 1..];
    ShowParseCanonical(digits);
  }

  /** The position of the last occurrence of c in s, if any. */
  function LastIndexOf(s: string, c: char): (r: Option<nat>)
    ensures r.None? <==> c !in s
    ensures r.Some? ==> r.value < |s| && s[r.value] == c && c !in s[r.value + 1..]
  {
    if s == [] then None
    else if s[|s| - 1] == c then Some(|s| - 1)
    else
      var r := LastIndexOf(s[..|s| - 1], c);
      assert r.Some? ==> s[r.value + 1..] == s[..|s| - 1][r.value + 1..] + [s[|s| - 1]];
      assert r.None? ==> s == s[..|s| - 1] + [s[|s| - 1]];
      r
  }

  /** Reading an answer back: split at the last ':' and parse the digits after it. */
  function ParseAnswer(s: string): (r: Option<Endpoint>)
    ensures r.Some? ==> |r.value.ip| < |s| && s[..|r.value.ip|] == r.value.ip && s[|r.value.ip|] == ':'
    ensures r.Some? ==> ':' !in s[|r.value.ip| + 1..]
    ensures r.Some? ==> IsDigitString(s[|r.value.ip| + 1..])
    ensures r.Some? ==> ParseDigits(s[|r.value.ip| + 1..]) == r.value.port
  {
    match LastIndexOf(s, ':')
    case None => None
    case Some(i) =>
      var digits := s[i + 1..];
      if IsDigitString(digits) then Some(Endpoint(s[..i], ParseDigits(digits))) else None
  }

  lemma DigitsHaveNoColon(s: string)
    requires AllDigits(s)
    ensures ':' !in s
  {
  }

  /** For an address without a colon (every IPv4 literal), splitting the
      answer at its last colon gives back the peer's address and port. */
  lemma {:induction false} ParseAnswerRoundTrip(peer: Endpoint)
    requires ':' !in peer.ip
    ensures ParseAnswer(Answer(peer)) == Some(peer)
  {
    var s := Answer(peer);
    var digits := ShowNat(peer.port);
    DigitsHaveNoColon(digits);
    assert s[|peer.ip|] == ':';
    assert s[|peer.ip| + 1..] == digits;
    assert LastIndexOf(s, ':') == Some(|peer.ip|);
    assert s[..|peer.ip|] == peer.ip;
    ParseShowNat(peer.port);
  }

  /** Two peers whose addresses have no colon get the same answer only if
      they are the same peer: a new ephemeral port gives a different reply. */
  lemma AnswerInjective(p: Endpoint, q: Endpoint)
    requires ':' !in p.ip && ':' !in q.ip
    requires Answer(p) == Answer(q)
    ensures p == q
  {
    ParseAnswerRoundTrip(p);
    ParseAnswerRoundTrip(q);
  }

  /** The reply datagram does not depend on the request's payload. */
  lemma ReplyIgnoresPayload(a: Datagram, b: Datagram)
    requires a.peer == b.peer
    ensures ServeDatagram(a) == ServeDatagram(b)
  {
  }
}
