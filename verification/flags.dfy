/** `config_connection` of kmb.py and the mode table it indexes. */
module Flags {
  import opened Errors

  /** The four handlers the program can start (the table at kmb.py:166-169). */
  datatype Mode = ClientTCP | ServerTCP | ClientUDP | ServerUDP
  {
    predicate IsServer() { this == ServerTCP || this == ServerUDP }
    predicate IsUdp() { this == ClientUDP || this == ServerUDP }
  }

  /** The key of a mode in the table. */
  function ToMask(m: Mode): (k: int)
    ensures 0 <= k <= 3
    ensures k == (if m.IsServer() then 1 else 0) + (if m.IsUdp() then 2 else 0)
  {
    match m
    case ClientTCP => 0
    case ServerTCP => 1
    case ClientUDP => 2
    case ServerUDP => 3
  }

  /** `config.get(k)`: the handler stored under key k, if any. */
  function FromMask(k: int): (r: Option<Mode>)
    ensures r.Some? <==> 0 <= k <= 3
  {
    if k == 0 then Some(ClientTCP)
    else if k == 1 then Some(ServerTCP)
    else if k == 2 then Some(ClientUDP)
    else if k == 3 then Some(ServerUDP)
    else None
  }

  lemma FromToMask(m: Mode)
    ensures FromMask(ToMask(m)) == Some(m)
  {
  }

  lemma ToFromMask(k: int)
    requires FromMask(k).Some?
    ensures ToMask(FromMask(k).value) == k
  {
  }

  /** `config_connection(flags)`: bit 0 of the mask is "-s", bit 1 is "-u";
      "-t" together with bit 1 is an error. */
  function ConfigConnection(flags: seq<string>): (r: Result<int>)
    ensures r.Err? <==> "-t" in flags && "-u" in flags
    ensures r.Err? ==> r.error == ConflictingFlags
    ensures r.Ok? ==> r.value == (if "-s" in flags then 1 else 0) + (if "-u" in flags then 2 else 0)
    ensures r.Ok? ==> 0 <= r.value <= 3
  {
    var mask := 0;
    if |flags| == 0 then
      Ok(mask)
    else
      var mask := if "-s" in flags then mask + 1 else mask;
      var mask := if "-u" in flags then mask + 2 else mask;
      if "-t" in flags && ((mask as bv8) & 0x2) >> 1 != 0 then Err(ConflictingFlags) else Ok(mask)
  }

  /** The result depends on the flags only through which of "-s", "-t" and "-u"
      occur: any other argument, a repetition or a reordering changes nothing. */
  lemma OnlyRecognisedFlagsMatter(f: seq<string>, g: seq<string>)
    requires "-s" in f <==> "-s" in g
    requires "-t" in f <==> "-t" in g
    requires "-u" in f <==> "-u" in g
    ensures ConfigConnection(f) == ConfigConnection(g)
  {
  }

  /** Reordering the flags changes nothing. */
  lemma OrderIrrelevant(f: seq<string>, g: seq<string>)
    requires multiset(f) == multiset(g)
    ensures ConfigConnection(f) == ConfigConnection(g)
  {
    assert forall x :: x in f <==> x in multiset(f);
    assert forall x :: x in g <==> x in multiset(g);
    OnlyRecognisedFlagsMatter(f, g);
  }

  /** Repeating flags changes nothing: only the set of arguments matters. */
  lemma DuplicatesIrrelevant(f: seq<string>, g: seq<string>)
    requires forall x :: x in f <==> x in g
    ensures ConfigConnection(f) == ConfigConnection(g)
  {
    OnlyRecognisedFlagsMatter(f, g);
  }

  /** Inserting an argument the function does not look at ("-o", "-f", a file
      name, ...) anywhere changes nothing. */
  lemma UnknownFlagIgnored(f: seq<string>, i: nat, x: string)
    requires i <= |f|
    requires x != "-s" && x != "-t" && x != "-u"
    ensures ConfigConnection(f[..i] + [x] + f[i..]) == ConfigConnection(f)
  {
    var g := f[..i] + [x] + f[i..];
    assert forall y :: y in g <==> y in f || y == x by {
      assert f == f[..i] + f[i..];
    }
    OnlyRecognisedFlagsMatter(g, f);
  }

  /** No flags at all select the TCP client. */
  lemma NoFlagsIsClientTCP()
    ensures ConfigConnection([]) == Ok(ToMask(ClientTCP))
  {
  }

  /** TCP is the default: "-t" without "-u" gives what its absence gives. */
  lemma TcpIsDefault(f: seq<string>)
    requires "-u" !in f
    ensures ConfigConnection(f + ["-t"]) == ConfigConnection(f)
  {
    assert forall y :: y in f + ["-t"] <==> y in f || y == "-t";
  }

  /** On success the mask names the mode the flags ask for: a server exactly
      when "-s" was given, UDP exactly when "-u" was given. */
  lemma ResolvedMode(flags: seq<string>)
    requires ConfigConnection(flags).Ok?
    ensures FromMask(ConfigConnection(flags).value).Some?
    ensures FromMask(ConfigConnection(flags).value).value.IsServer() <==> "-s" in flags
    ensures FromMask(ConfigConnection(flags).value).value.IsUdp() <==> "-u" in flags
  {
    ToFromMask(ConfigConnection(flags).value);
  }
}
