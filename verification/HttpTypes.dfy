/** Requests, responses and header lists of include/async_net/http/types.hpp, and their HTTP/2 header-list form. */
module HttpTypes {
  import opened Bytes
  import opened DynamicTable

  datatype Method = GET | HEAD | POST | PUT | DELETE | PATCH | OPTIONS | TRACE | CONNECT

  datatype Version = Http10 | Http11 | Http2

  datatype Request = Request(verb: Method, path: seq<byte>, query: seq<byte>, version: Version, hdrs: seq<Field>,
    body: seq<byte>)

  datatype Response = Response(status: int, version: Version, hdrs: seq<Field>, body: seq<byte>, trailers: seq<Field>)

  function EmptyRequest(): Request {
    Request(GET, Ascii("/"), [], Http11, [], [])
  }

  function EmptyResponse(): Response {
    Response(200, Http11, [], [], [])
  }

  function MethodName(m: Method): seq<byte> {
    match m
    case GET => Ascii("GET")
    case HEAD => Ascii("HEAD")
    case POST => Ascii("POST")
    case PUT => Ascii("PUT")
    case DELETE => Ascii("DELETE")
    case PATCH => Ascii("PATCH")
    case OPTIONS => Ascii("OPTIONS")
    case TRACE => Ascii("TRACE")
    case CONNECT => Ascii("CONNECT")
  }

  function ParseMethod(s: seq<byte>): Option<Method> {
    if s == Ascii("GET") then Some(GET)
    else if s == Ascii("HEAD") then Some(HEAD)
    else if s == Ascii("POST") then Some(POST)
    else if s == Ascii("PUT") then Some(PUT)
    else if s == Ascii("DELETE") then Some(DELETE)
    else if s == Ascii("PATCH") then Some(PATCH)
    else if s == Ascii("OPTIONS") then Some(OPTIONS)
    else if s == Ascii("TRACE") then Some(TRACE)
    else if s == Ascii("CONNECT") then Some(CONNECT)
    else None
  }

  lemma AsciiHead(s: string, i: nat)
    requires i < |s|
    ensures |Ascii(s)| == |s| && Ascii(s)[i] == (s[i] as int) % 256
  {
  }

  lemma MethodRoundTrip(m: Method)
    ensures ParseMethod(MethodName(m)) == Some(m)
  {
    AsciiHead("GET", 0); AsciiHead("HEAD", 0); AsciiHead("POST", 0); AsciiHead("POST", 1); AsciiHead("PUT", 0);
    AsciiHead("PUT", 1); AsciiHead("DELETE", 0); AsciiHead("PATCH", 0); AsciiHead("PATCH", 1); AsciiHead("OPTIONS", 0);
    AsciiHead("TRACE", 0); AsciiHead("CONNECT", 0);
  }

  // ---------------------------------------------------------------- header lists

  function LowerByte(b: byte): byte {
    if 65 <= b <= 90 then b + 32 else b
  }

  function Lower(s: seq<byte>): (r: seq<byte>)
    ensures |r| == |s|
  {
    seq(|s|, i requires 0 <= i < |s| => LowerByte(s[i]))
  }

  /** The first value under a name, ignoring case. */
  function Get(hdrs: seq<Field>, name: seq<byte>): Option<seq<byte>> {
    if |hdrs| == 0 then None
    else if Lower(hdrs[0].name) == Lower(name) then Some(hdrs[0].value)
    else Get(hdrs[1..], name)
  }

  /** Lower-cased fields, without those whose lower-cased name is skipped. */
  function Forwarded(hdrs: seq<Field>, skip: set<seq<byte>>): seq<Field> {
    if |hdrs| == 0 then []
    else
      var name := Lower(hdrs[0].name);
      var rest := Forwarded(hdrs[1..], skip);
      if name in skip then rest else [Field(name, hdrs[0].value)] + rest
  }

  /** The header list of a request: four pseudo-headers, then the rest without Host and Connection. */
  function RequestFields(req: Request): seq<Field> {
    var host := Get(req.hdrs, Ascii("Host"));
    [ Field(Ascii(":method"), MethodName(req.verb)),
      Field(Ascii(":path"), if req.path == [] then Ascii("/") else req.path),
      Field(Ascii(":scheme"), Ascii("https")),
      Field(Ascii(":authority"), if host.Some? then host.value else Ascii("localhost")) ]
    + Forwarded(req.hdrs, {Ascii("host"), Ascii("connection")})
  }

  function Digits(n: nat): seq<byte> {
    if n < 10 then [48 + n] else Digits(n / 10) + [48 + n % 10]
  }

  function Decimal(n: int): seq<byte> {
    if n < 0 then [45] + Digits(-n) else Digits(n)
  }

  /** Skipped in every response: these are replaced or meaningless in HTTP/2. */
  function ResponseSkip(): set<seq<byte>> {
    {Ascii("content-type"), Ascii("content-length"), Ascii("connection"), Ascii("transfer-encoding")}
  }

  function ResponseFields(resp: Response, withLength: bool): seq<Field> {
    var ct := Get(resp.hdrs, Ascii("Content-Type"));
    [Field(Ascii(":status"), Decimal(resp.status))]
    + (if ct.Some? then [Field(Ascii("content-type"), ct.value)] else [])
    + (if withLength && resp.body != [] then [Field(Ascii("content-length"), Decimal(|resp.body|))] else [])
    + Forwarded(resp.hdrs, ResponseSkip())
  }

  /** The position of a byte, or the length of the string. */
  function IndexOf(s: seq<byte>, b: byte): (r: nat)
    ensures r <= |s|
    ensures r < |s| ==> s[r] == b
    ensures b !in s[..r]
  {
    if |s| == 0 then 0
    else if s[0] == b then 0
    else
      var r := IndexOf(s[1..], b) + 1;
      assert s[..r] == [s[0]] + s[1..][..r - 1];
      r
  }

  lemma {:induction false} IndexIs(s: seq<byte>, b: byte, k: nat)
    requires k < |s| && s[k] == b && forall i :: 0 <= i < k ==> s[i] != b
    ensures IndexOf(s, b) == k
    decreases k
  {
    if k > 0 {
      IndexIs(s[1..], b, k - 1);
    }
  }

  /** Path and query are cut at the first question mark; an empty path is the root. */
  function SetPath(req: Request, value: seq<byte>): Request {
    var q := IndexOf(value, 63);
    var path := value[..q];
    var req' := req.(path := if path == [] then Ascii("/") else path);
    if q < |value| then req'.(query := value[q + 1..]) else req'
  }

  function ReceiveField(req: Request, f: Field): Request {
    if f.name == Ascii(":method") then
      var m := ParseMethod(f.value);
      if m.Some? then req.(verb := m.value) else req
    else if f.name == Ascii(":path") then SetPath(req, f.value)
    else if f.name == Ascii(":scheme") then req
    else if f.name == Ascii(":authority") then req.(hdrs := req.hdrs + [Field(Ascii("Host"), f.value)])
    else if f.name == [] || f.name[0] != 58 then req.(hdrs := req.hdrs + [f])
    else req
  }

  function ReceiveFields(req: Request, fs: seq<Field>): Request
    decreases |fs|
  {
    if |fs| == 0 then req else ReceiveFields(ReceiveField(req, fs[0]), fs[1..])
  }

  /** A parsed status: the leading decimal number, 0 when there is none or it does not fit an int. */
  function StatusOf(s: seq<byte>): int {
    var negative := |s| > 0 && s[0] == 45;
    var n: int := DigitRun(if negative then s[1..] else s, 0);
    if n > (if negative then 0x8000_0000 else 0x7FFF_FFFF) then 0 else if negative then -n else n
  }

  function DigitRun(s: seq<byte>, acc: nat): nat
    decreases |s|
  {
    if |s| == 0 || !(48 <= s[0] <= 57) then acc else DigitRun(s[1..], 10 * acc + (s[0] - 48))
  }

  function ReceiveStatus(resp: Response, f: Field): Response {
    if f.name == Ascii(":status") then resp.(status := StatusOf(f.value))
    else if f.name == [] || f.name[0] != 58 then resp.(hdrs := resp.hdrs + [f])
    else resp
  }

  function ReceiveResponse(resp: Response, fs: seq<Field>): Response
    decreases |fs|
  {
    if |fs| == 0 then resp else ReceiveResponse(ReceiveStatus(resp, fs[0]), fs[1..])
  }
}
