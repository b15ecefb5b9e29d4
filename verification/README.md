# kmb.py command-line front end, modelled in Dafny

`kmb.py` is a small address-reflection utility. Run as a server, it answers every TCP
connection or UDP datagram with the text `<ip>:<port>` of the peer. Run as a client, it
prints what such a server sends back. This project models the deterministic part of the
program: the validation of the `<host> <port>` arguments (`check_address`), the mapping
of the remaining flags to one of four modes (`config_connection`), the mode table and
argument-count check in the `__main__` block, and the reply text both servers build.
Everything is pure: the program keeps no state in these parts, so each is a function.
The properties about them are lemmas.

Modules, in dependency order:

- `Errors`: the reasons the program stops, and the `Result`, `Outcome` and `Option`
  wrappers. The reasons are each `sys.exit`, the IndexError raised for an empty host,
  and the ValueError `int()` raises on a port of more than 4300 digits.
- `Decimal`: ASCII digit strings, `int(s)` (`ParseDigits`) and `str(n)` (`ShowNat`). Two
  results are proved here: `int(str(n)) == n`, and every digit string is some zeros
  followed by `str` of its value.
- `Address`: `check_address` as written, which accepts the value 65536. It also holds the
  corrected check and the lemmas that compare the two.
- `Flags`: `config_connection` on its integer mask; the mode type
  `{ClientTCP, ServerTCP, ClientUDP, ServerUDP}`; the `ToMask`/`FromMask` pair that matches
  the mode type to the program's table.
- `Reply`: the answer `ip + ":" + str(port)`, one pass of each server loop, and how to
  read the answer back.
- `Launch`: `Run(argv)`. It gives either the handler to start, with its host and port,
  or the error that stops the program.

Two points of the program's own text deserve a note:

- The usage message at kmb.py:112 advertises `[-o | -f <file>]`, but no code reads `-o`
  or `-f`. The model ignores them, and `Flags.UnknownFlagIgnored` proves that they change
  nothing.
- Ports are 16-bit numbers, so socket bind and connect accept only 0..65535. The test at
  kmb.py:109 still lets 65536 through. The model accepts it too (see Findings).

## Model

| member | source | states |
|---|---|---|
| `Decimal.ParseDigits` | kmb.py:108-109 | `int(s)` of a digit string is never negative, so the `int(str_port) < 0` test can never succeed |
| `Decimal.ShowNat` | kmb.py:69 | `str(port)` is a non-empty digit string with no leading zero unless the port is 0 |
| `Decimal.ParseShowNat` | kmb.py:69 | parsing the decimal text of a port gives the port back: `int(str(n)) == n` |
| `Decimal.ShowParseCanonical` | kmb.py:69 | every digit string without a superfluous leading zero is `str` of its own value |
| `Decimal.DigitStringShape` | kmb.py:108-109 | every string `isdigit` accepts is some zeros followed by `str(int(s))` |
| `Decimal.ParseZerosThenShow` | kmb.py:108-109 | leading zeros do not change the value: `int("0"*k + str(n)) == n` |
| `Decimal.ShowNatInjective` | kmb.py:69 | distinct port numbers have distinct decimal texts |
| `Address.CheckHost` | kmb.py:118-121 | the host passes iff it is non-empty and does not start with `-`; an empty host is an IndexError, a leading `-` is the invalid-host exit |
| `Address.CheckAddress` | kmb.py:99-121 | a digit string longer than 4300 characters makes `int()` raise; otherwise the port is refused iff it is not all digits or its value exceeds 65536; a port that passes leaves the outcome to the host check; a pass implies a port value in 0..65536 |
| `Address.CheckAddressCorrected` | kmb.py:109 | the intended check: identical, except that the port bound is 65535 |
| `Address.PortAcceptedShape` | kmb.py:108-116 | a port string is accepted iff it is `k` zeros followed by `str(n)`, for some `n <= 65536`, with at most 4300 characters in all |
| `Address.AcceptsEveryDecimalPort` | kmb.py:108-121 | `str(n)` for every `n` in 0..65536 passes, given a host that does not start with `-` |
| `Address.PortCheckedFirst` | kmb.py:108-121 | a bad port gives the same port error (invalid port or digit limit) whatever the host |
| `Address.DigitLimitExample` | kmb.py:108-109 | 4299 zeros then "80" makes `int()` raise; 4298 zeros then "80" passes |
| `Address.PortExamples` | kmb.py:108-121 | "65536" and "00080" pass; "65537", "", "8a0" and "-1" fail with the port error; host "-s" with a good port fails with the host error; an empty host is an IndexError |
| `Address.AcceptsPort65536` | kmb.py:109 | the as-written check passes "65536" although 65536 exceeds the largest port; the corrected check refuses it |
| `Address.CorrectedDiffersOnlyAt65536` | kmb.py:109 | the as-written and corrected checks differ exactly when the port converts and its value is 65536 |
| `Flags.ToMask` | kmb.py:166-169 | the table key of a mode is `1·[server] + 2·[udp]`, in 0..3 |
| `Flags.FromMask` | kmb.py:166-171 | `config.get(k)` finds a handler iff `k` is in 0..3 |
| `Flags.FromToMask` | kmb.py:166-169 | looking up a mode's key gives that mode |
| `Flags.ToFromMask` | kmb.py:166-169 | the mode found under a key has that key |
| `Flags.ConfigConnection` | kmb.py:124-150 | fails, with the conflicting-flags exit, iff both `-t` and `-u` occur; otherwise the mask is `1·[-s occurs] + 2·[-u occurs]`, in 0..3 |
| `Flags.OnlyRecognisedFlagsMatter` | kmb.py:140-150 | the result depends only on whether each of `-s`, `-t`, `-u` occurs |
| `Flags.OrderIrrelevant` | kmb.py:140-150 | reordering the flags does not change the result |
| `Flags.DuplicatesIrrelevant` | kmb.py:140-150 | repeating flags does not change the result |
| `Flags.UnknownFlagIgnored` | kmb.py:140-150 | inserting any other argument (`-o`, `-f`, a file name) at any position does not change the result |
| `Flags.NoFlagsIsClientTCP` | kmb.py:135-138 | no flags at all give the TCP client's key, 0 |
| `Flags.TcpIsDefault` | kmb.py:143-149 | adding `-t` when `-u` is absent changes nothing: TCP is the default |
| `Flags.ResolvedMode` | kmb.py:140-171 | on success the table holds a mode for the mask; it is a server iff `-s` occurs and UDP iff `-u` occurs |
| `Reply.Answer` | kmb.py:67-72 | the reply is the peer's ip, then `:`, then a digit string with no superfluous leading zero whose value is the peer's port, with nothing else |
| `Reply.AnswerPortIsStr` | kmb.py:69 | the text after the ip and colon is exactly `str(port)` |
| `Reply.ServeDatagram` | kmb.py:91-96 | the UDP reply goes to the sender and carries the same answer text as the TCP server writes |
| `Reply.ParseAnswer` | kmb.py:69 | reading a reply back: a result splits the text at a colon with no colon after it, and the digits after it have the value of the port |
| `Reply.LastIndexOf` | kmb.py:69 | finds the last occurrence of a character, and gives none iff the character does not occur (used to read an answer back) |
| `Reply.ParseAnswerRoundTrip` | kmb.py:69 | for an ip with no `:`, splitting the answer at its last `:` gives back the ip and the port |
| `Reply.AnswerInjective` | kmb.py:69 | two peers with colon-free ips get the same answer only if they are the same peer |
| `Reply.ReplyIgnoresPayload` | kmb.py:91-96 | the UDP reply does not depend on what the sender sent |
| `Launch.Run` | kmb.py:153-171 | fewer than 3 argv entries is the argument-count error; an address error is passed on; success iff the address passes and `-t`, `-u` do not both occur; then the handler gets the host, `int(port)` in 0..65536, and the mode the flags select |
| `Launch.ErrorPrecedence` | kmb.py:154-171 | errors come in program order: port, then host (empty or starting with `-`), then conflicting flags |
| `Launch.RunExamples` | kmb.py:153-171 | `127.0.0.1 9000 -s -u -o` starts the UDP server on port 9000; `127.0.0.1 9000` starts the TCP client; `-t -u` fails; a single argument is too few |
| `Launch.StartedPortFitsIffCorrected` | kmb.py:109-171 | a started handler's port is at most 65535 iff the corrected check also passes the address |

## Findings

| source | as written | input that shows it | evidently intended | confidence | as-written member | corrected member |
|---|---|---|---|---|---|---|
| kmb.py:109 | the port is refused only when its value is above 65536 | port string "65536" passes the check, and 65536 is then handed to the socket handler | refuse values above 65535, the largest 16-bit port | high (proved; not executed) | `Address.AcceptsPort65536` | `Address.CheckAddressCorrected` |

`Launch.Run` keeps the as-written check, because it models what the program does.
`Address.CorrectedDiffersOnlyAt65536` and `Launch.StartedPortFitsIffCorrected` prove that
the corrected check differs from it only on port strings whose value is 65536.

## Left out

- The four socket handlers (`client_tcp_interface`, `client_udp_interface`,
  `server_tcp_interface`, `server_udp_interface`). Socket creation, connect, bind, listen,
  accept, send, recv and `print` are foreign I/O. The never-ending server loops are
  modelled only as one pass each (`Reply.Answer`, `Reply.ServeDatagram`). The
  peer endpoint that `accept`/`recvfrom` return is a parameter.
- The client side's printing of the received text, and the 4096-byte receive buffer.
- Process termination and the usage text of each `sys.exit`: each is an `Errors.Error`
  value, not control flow.
- Python's Unicode `str.isdigit()`, which also accepts non-ASCII digits. The model
  accepts only ASCII `'0'..'9'`.
- `Address.CheckAddress`, `Address.PortAcceptedShape` and `Launch.Run` follow CPython's
  default integer-string limit of 4300 digits (`sys.get_int_max_str_digits()`, from 3.11
  on). A different limit set with `-X int_max_str_digits`, or an interpreter without the
  limit, is not modelled.
- Host resolution (DNS) and the UTF-8 encoding of replies: replies are strings.
- IPv6 and other address families: the program uses only AF_INET. The reply lemmas
  assume an ip with no `:`, which holds for every IPv4 literal.
- `Reply.Endpoint` gives the peer port as a non-negative integer. It does not bound the
  port by 65535: the OS supplies it and the model does not rely on the bound.
