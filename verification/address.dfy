/** `check_address` of kmb.py: validation of the host and port arguments. */
module Address {
  import opened Errors
  import opened Decimal

  /** The bound the program compares the port value against (kmb.py:109). */
  const PortBoundAsWritten := 65536

  /** The largest port a socket accepts: ports are 16-bit unsigned numbers. */
  const MaxPort := 65535

  /** The most digits `int()` converts: the default of
      `sys.get_int_max_str_digits()`; leading zeros count. */
  const IntMaxStrDigits := 4300

  /** `int(port)` succeeds: the port is all digits and not too long. */
  predicate PortParses(port: string)
  {
    IsDigitString(port) && |port| <= IntMaxStrDigits
  }

  /** The port passes the checks of kmb.py:108-109 with `bound` as the limit. */
  predicate PortWithin(port: string, bound: int)
  {
    PortParses(port) && ParseDigits(port) <= bound
  }

  /** The host check of kmb.py:118-121; indexing an empty string raises. */
  function CheckHost(host: string): (r: Outcome)
    ensures r.Pass? <==> |host| > 0 && host[0] != '-'
    ensures r == Fail(HostIndexError) <==> host == []
    ensures r == Fail(InvalidHost) <==> |host| > 0 && host[0] == '-'
  {
    if |host| == 0 then Fail(HostIndexError)
    else if host[0] == '-' then Fail(InvalidHost)
    else Pass
  }

  /** `check_address(host, port)` as written: the port first, then the host.
      `int(port)` at kmb.py:109 raises on a digit string longer than the
      interpreter's limit. The `v < 0` test is kept from the program;
      `ParseDigits` never yields a negative value, so that branch is dead. */
  function CheckAddress(host: string, port: string): (r: Outcome)
    ensures r == Fail(PortDigitLimit) <==> IsDigitString(port) && |port| > IntMaxStrDigits
    ensures r == Fail(InvalidPort) <==>
      !IsDigitString(port) || (PortParses(port) && ParseDigits(port) > PortBoundAsWritten)
    ensures PortWithin(port, PortBoundAsWritten) ==> r == CheckHost(host)
    ensures r.Pass? ==> PortParses(port) && 0 <= ParseDigits(port) <= PortBoundAsWritten
  {
    if IsDigitString(port) then
      if |port| > IntMaxStrDigits then Fail(PortDigitLimit)
      else
        var v := ParseDigits(port);
        if v < 0 || v > PortBoundAsWritten then Fail(InvalidPort) else CheckHost(host)
    else
      Fail(InvalidPort)
  }

  /** The check as evidently intended: only values a socket can bind to. */
  function CheckAddressCorrected(host: string, port: string): (r: Outcome)
    ensures r == Fail(PortDigitLimit) <==> IsDigitString(port) && |port| > IntMaxStrDigits
    ensures r == Fail(InvalidPort) <==>
      !IsDigitString(port) || (PortParses(port) && ParseDigits(port) > MaxPort)
    ensures PortWithin(port, MaxPort) ==> r == CheckHost(host)
    ensures r.Pass? ==> PortParses(port) && 0 <= ParseDigits(port) <= MaxPort
  {
    if !IsDigitString(port) then Fail(InvalidPort)
    else if |port| > IntMaxStrDigits then Fail(PortDigitLimit)
    else if ParseDigits(port) <= MaxPort then CheckHost(host)
    else Fail(InvalidPort)
  }

  /** A port string is accepted exactly when it is some zeros followed by the
      decimal text of a number no greater than 65536, at most 4300 digits in all. */
  lemma PortAcceptedShape(port: string)
    ensures PortWithin(port, PortBoundAsWritten) <==>
      exists k: nat, n: nat :: n <= PortBoundAsWritten && k + |ShowNat(n)| <= IntMaxStrDigits &&
        port == Zeros(k) + ShowNat(n)
  {
    if PortWithin(port, PortBoundAsWritten) {
      DigitStringShape(port);
      var n := ParseDigits(port);
      var k := |port| - |ShowNat(n)|;
      assert port == Zeros(k) + ShowNat(n);
    }
    if exists k: nat, n: nat :: n <= PortBoundAsWritten && k + |ShowNat(n)| <= IntMaxStrDigits &&
        port == Zeros(k) + ShowNat(n) {
      var k: nat, n: nat :| n <= PortBoundAsWritten && k + |ShowNat(n)| <= IntMaxStrDigits &&
        port == Zeros(k) + ShowNat(n);
      ParseZerosThenShow(k, n);
    }
  }

  /** `str(n)` of every port in 0..65536 passes the port check, so with an
      acceptable host the whole check passes. */
  lemma AcceptsEveryDecimalPort(host: string, n: nat)
    requires n <= PortBoundAsWritten
    requires |host| > 0 && host[0] != '-'
    ensures CheckAddress(host, ShowNat(n)) == Pass
  {
    ParseShowNat(n);
    ShowNatShort(n, 5);
  }

  /** The port is checked before the host: a bad port is reported as a port
      error whatever the host. */
  lemma PortCheckedFirst(host: string, port: string)
    requires !PortWithin(port, PortBoundAsWritten)
    ensures CheckAddress(host, port) == CheckAddress("localhost", port)
    ensures CheckAddress(host, port) in {Fail(InvalidPort), Fail(PortDigitLimit)}
  {
  }

  /** A port of 4301 digits makes `int()` raise, even one of value 80. */
  lemma DigitLimitExample()
    ensures CheckAddress("localhost", Zeros(4299) + "80") == Fail(PortDigitLimit)
    ensures CheckAddress("localhost", Zeros(4298) + "80") == Pass
  {
    ParseShowNat(80);
    assert ShowNat(80) == "80";
    ParseZerosThenShow(4298, 80);
  }

  /** Concrete cases: "65536" and "00080" pass, "65537", "", "8a0" and "-1" fail. */
  lemma PortExamples()
    ensures CheckAddress("localhost", "65536") == Pass
    ensures CheckAddress("localhost", "00080") == Pass
    ensures CheckAddress("localhost", "65537") == Fail(InvalidPort)
    ensures CheckAddress("localhost", "") == Fail(InvalidPort)
    ensures CheckAddress("localhost", "8a0") == Fail(InvalidPort)
    ensures CheckAddress("localhost", "-1") == Fail(InvalidPort)
    ensures CheckAddress("-s", "-1") == Fail(InvalidPort)
    ensures CheckAddress("-s", "80") == Fail(InvalidHost)
    ensures CheckAddress("", "80") == Fail(HostIndexError)
  {
    ParseShowNat(65536);
    ParseShowNat(65537);
    ParseShowNat(80);
    ParseZerosThenShow(3, 80);
    assert ShowNat(65536) == "65536";
    assert ShowNat(65537) == "65537";
    assert ShowNat(80) == "80";
    assert Zeros(3) == "000";
    assert "00080" == Zeros(3) + ShowNat(80);
    assert !IsDigit('a') && "8a0"[1] == 'a';
    assert !IsDigit('-') && "-1"[0] == '-';
  }

  /** The off-by-one: the check lets "65536" through although no socket can
      use port 65536; the corrected check refuses it. */
  lemma AcceptsPort65536()
    ensures CheckAddress("localhost", "65536") == Pass
    ensures ParseDigits("65536") > MaxPort
    ensures CheckAddressCorrected("localhost", "65536") == Fail(InvalidPort)
  {
    ParseShowNat(65536);
    assert ShowNat(65536) == "65536";
  }

  /** The two checks agree on every input except a port whose value is 65536,
      which the corrected check refuses whatever the host. */
  lemma CorrectedDiffersOnlyAt65536(host: string, port: string)
    ensures CheckAddress(host, port) != CheckAddressCorrected(host, port) <==>
      PortParses(port) && ParseDigits(port) == PortBoundAsWritten
  {
  }
}
