/** The `__main__` block of kmb.py (lines 153-171): count the arguments, check
    the address, resolve the flags and pick the handler to start. The handler
    itself is socket I/O and is represented by the invocation it would get. */
module Launch {
  import opened Errors
  import opened Decimal
  import opened Address
  import opened Flags

  /** The handler chosen and the arguments it is called with. */
  datatype Invocation = Invocation(mode: Mode, host: string, port: int)

  /** What the program does with `sys.argv` (argv[0] is the script name). */
  function Run(argv: seq<string>): (r: Result<Invocation>)
    ensures |argv| < 3 ==> r == Err(WrongArgumentCount)
    ensures |argv| >= 3 && CheckAddress(argv[1], argv[2]).Fail? ==>
      r == Err(CheckAddress(argv[1], argv[2]).error)
    ensures r.Ok? <==>
      |argv| >= 3 && CheckAddress(argv[1], argv[2]).Pass? && !("-t" in argv[3..] && "-u" in argv[3..])
    ensures r.Ok? ==> r.value.host == argv[1]
    ensures r.Ok? ==> r.value.port == ParseDigits(argv[2]) && 0 <= r.value.port <= PortBoundAsWritten
    ensures r.Ok? ==> (r.value.mode.IsServer() <==> "-s" in argv[3..])
    ensures r.Ok? ==> (r.value.mode.IsUdp() <==> "-u" in argv[3..])
  {
    if |argv| < 3 then
      Err(WrongArgumentCount)
    else
      var host, port := argv[1], argv[2];
      match CheckAddress(host, port)
      case Fail(e) => Err(e)
      case Pass =>
        var flags := argv[3..];
        match ConfigConnection(flags)
        case Err(e) => Err(e)
        case Ok(mask) =>
          ResolvedMode(flags);
          Ok(Invocation(FromMask(mask).value, host, ParseDigits(port)))
  }

  /** Errors are reported in the program's order: argument count, then port,
      then host, then flags; a bad port hides a bad host and bad flags, and a
      bad host hides bad flags. */
  lemma ErrorPrecedence(argv: seq<string>)
    requires |argv| >= 3
    ensures !PortWithin(argv[2], PortBoundAsWritten) ==>
      Run(argv) in {Err(InvalidPort), Err(PortDigitLimit)}
    ensures PortWithin(argv[2], PortBoundAsWritten) && argv[1] == [] ==> Run(argv) == Err(HostIndexError)
    ensures PortWithin(argv[2], PortBoundAsWritten) && |argv[1]| > 0 && argv[1][0] == '-' ==>
      Run(argv) == Err(InvalidHost)
    ensures PortWithin(argv[2], PortBoundAsWritten) && CheckHost(argv[1]).Pass?
      ==> ("-t" in argv[3..] && "-u" in argv[3..] <==> Run(argv) == Err(ConflictingFlags))
  {
  }

  /** `python3 kmb.py 127.0.0.1 9000 -s -u -o` starts the UDP server on port 9000;
      `python3 kmb.py 127.0.0.1 9000` starts the TCP client. */
  lemma RunExamples()
    ensures Run(["kmb.py", "127.0.0.1", "9000", "-s", "-u", "-o"]) ==
      Ok(Invocation(ServerUDP, "127.0.0.1", 9000))
    ensures Run(["kmb.py", "127.0.0.1", "9000"]) == Ok(Invocation(ClientTCP, "127.0.0.1", 9000))
    ensures Run(["kmb.py", "127.0.0.1", "9000", "-t", "-u"]) == Err(ConflictingFlags)
    ensures Run(["kmb.py", "127.0.0.1"]) == Err(WrongArgumentCount)
  {
    ParseShowNat(9000);
    assert ShowNat(9000) == "9000";
  }

  /** The port a started handler receives fits a socket exactly when the
      corrected check would also have let the address through. */
  lemma StartedPortFitsIffCorrected(argv: seq<string>)
    requires Run(argv).Ok?
    ensures Run(argv).value.port <= MaxPort <==> CheckAddressCorrected(argv[1], argv[2]).Pass?
  {
  }
}
