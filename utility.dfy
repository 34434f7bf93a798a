/** The helpers shared by the log and the request handlers: the block
    checksum, zeroing a block, the HTTP status texts, splitting the command
    name out of a request line, the response header and the neighbour-list
    JSON. */
module Utility {
  import opened Types
  import opened Decimal

  /** The raw contents of one block, as BLOCK_SIZE / 8 little-endian words. */
  type Block = b: seq<u64> | |b| == WORDS_PER_BLOCK witness ZeroBlock

  /** The contents of a cleared block. */
  const ZeroBlock: seq<u64> := Zeros(WORDS_PER_BLOCK)

  function Zeros(n: nat): (z: seq<u64>)
    ensures |z| == n && forall i :: 0 <= i < n ==> z[i] == 0
  {
    seq(n, _ => 0)
  }

  // ---------------------------------------------------------------------
  // compute_checksum_xor and clear_block
  // ---------------------------------------------------------------------

  function Pow2(n: nat): (p: nat)
    ensures p >= 1
  {
    if n == 0 then 1 else 2 * Pow2(n - 1)
  }

  lemma {:induction false} Pow2Add(a: nat, b: nat)
    ensures Pow2(a + b) == Pow2(a) * Pow2(b)
  {
    if a > 0 {
      Pow2Add(a - 1, b);
    }
  }

  lemma {:induction false} Pow2Of64()
    ensures Pow2(64) == U64_MOD
  {
    assert Pow2(4) == 16;
    Pow2Add(4, 4);
    Pow2Add(8, 8);
    Pow2Add(16, 16);
    Pow2Add(32, 32);
  }

  /** Bitwise exclusive or of the low `n` bits of `a` and `b`, the least
      significant bit first. */
  function XorBits(a: nat, b: nat, n: nat): nat {
    if n == 0 then 0
    else 2 * XorBits(a / 2, b / 2, n - 1) + (if a % 2 == b % 2 then 0 else 1)
  }

  /** The exclusive or of `n` bits fits in `n` bits. */
  lemma {:induction false} XorBitsBound(a: nat, b: nat, n: nat)
    ensures XorBits(a, b, n) < Pow2(n)
  {
    if n > 0 {
      XorBitsBound(a / 2, b / 2, n - 1);
    }
  }

  /** Exclusive or with 0 keeps a value that fits. */
  lemma {:induction false} XorBitsZero(a: nat, n: nat)
    requires a < Pow2(n)
    ensures XorBits(a, 0, n) == a
  {
    if n > 0 {
      XorBitsZero(a / 2, n - 1);
    }
  }

  /** Bitwise exclusive or of two 64-bit words. */
  function Xor(a: u64, b: u64): (r: u64)
    ensures b == 0 ==> r == a
  {
    Pow2Of64();
    XorBitsBound(a, b, 64);
    XorBitsZero(a, 64);
    XorBits(a, b, 64)
  }

  /** The exclusive or of the words `b[1], ..., b[n - 1]`, folded from the
      left as the checksum loop does; word 0 is never part of it. */
  function XorPrefix(b: seq<u64>, n: nat): u64
    requires 1 <= n <= |b|
  {
    if n == 1 then 0 else Xor(XorPrefix(b, n - 1), b[n - 1])
  }

  /** The checksum of a block: the exclusive or of words 1 to 511, plus
      CHECKSUM_OFFSET, modulo 2^64. */
  function ChecksumXor(b: Block): u64 {
    (XorPrefix(b, WORDS_PER_BLOCK) + CHECKSUM_OFFSET) % U64_MOD
  }

  /** `compute_checksum_xor`: the accumulator loop over words 1 to 511. */
  method ComputeChecksumXor(block: array<u64>) returns (checksum: u64)
    requires block.Length == WORDS_PER_BLOCK
    ensures checksum == ChecksumXor(block[..])
  {
    var acc: u64 := 0;
    var i := 1;
    while i < WORDS_PER_BLOCK
      invariant 1 <= i <= WORDS_PER_BLOCK
      invariant acc == XorPrefix(block[..], i)
    {
      acc := Xor(acc, block[i]);
      i := i + 1;
    }
    checksum := (acc + CHECKSUM_OFFSET) % U64_MOD;
  }

  lemma {:induction false} XorPrefixIgnoresWord0(b: seq<u64>, w: u64, n: nat)
    requires 1 <= n <= |b|
    ensures XorPrefix(b[0 := w], n) == XorPrefix(b, n)
  {
    if n > 1 {
      XorPrefixIgnoresWord0(b, w, n - 1);
    }
  }

  /** The checksum never reads word 0, the word every checksummed block
      stores its checksum in. */
  lemma {:induction false} ChecksumIgnoresWord0(b: Block, w: u64)
    ensures ChecksumXor(b[0 := w]) == ChecksumXor(b)
  {
    XorPrefixIgnoresWord0(b, w, WORDS_PER_BLOCK);
  }

  lemma {:induction false} XorPrefixOfZeros(b: seq<u64>, n: nat)
    requires 1 <= n <= |b| && forall i :: 0 <= i < |b| ==> b[i] == 0
    ensures XorPrefix(b, n) == 0
  {
    if n > 1 {
      XorPrefixOfZeros(b, n - 1);
    }
  }

  /** A cleared block computes CHECKSUM_OFFSET but stores 0. */
  lemma {:induction false} ZeroBlockChecksum()
    ensures ChecksumXor(ZeroBlock) == CHECKSUM_OFFSET
    ensures ZeroBlock[0] != ChecksumXor(ZeroBlock)
  {
    XorPrefixOfZeros(ZeroBlock, WORDS_PER_BLOCK);
  }

  /** `clear_block`: `memset` of the whole block to zero. */
  method ClearBlock(block: array<u64>)
    requires block.Length == WORDS_PER_BLOCK
    modifies block
    ensures block[..] == ZeroBlock
  {
    var i := 0;
    while i < block.Length
      invariant 0 <= i <= block.Length
      invariant forall k :: 0 <= k < i ==> block[k] == 0
    {
      block[i] := 0;
      i := i + 1;
    }
  }

  // ---------------------------------------------------------------------
  // status_code_mp
  // ---------------------------------------------------------------------

  const STATUS_CODE_MP: map<int, string> :=
    map[200 := "OK", 204 := "OK", 400 := "Bad Request", 507 := "Checkpoint Needed"]

  /** `status_code_mp[code]`: `operator[]` inserts and returns an empty
      string for a code the table does not hold. */
  function StatusText(code: int): (text: string)
    ensures code == 200 || code == 204 ==> text == "OK"
    ensures code == 400 ==> text == "Bad Request"
    ensures code == 507 ==> text == "Checkpoint Needed"
    ensures code !in {200, 204, 400, 507} ==> text == ""
  {
    if code in STATUS_CODE_MP then STATUS_CODE_MP[code] else ""
  }

  // ---------------------------------------------------------------------
  // get_command_type_from_uri
  // ---------------------------------------------------------------------

  /** `s.find(c)`, with `|s|` standing for `npos`. */
  function FindFirst(s: string, c: char): (i: nat)
    ensures i <= |s| && c !in s[..i]
    ensures i < |s| ==> s[i] == c
  {
    if s == [] then 0
    else if s[0] == c then 0
    else
      var i := 1 + FindFirst(s[1..], c);
      assert s[..i] == [s[0]] + s[1..][..i - 1];
      i
  }

  /** `s.find_last_of(c)`, with `None` standing for `npos`. */
  function FindLast(s: string, c: char): (r: Option<nat>)
    ensures r.None? ==> c !in s
    ensures r.Some? ==> r.value < |s| && s[r.value] == c && c !in s[r.value + 1..]
  {
    if s == [] then None
    else if s[|s| - 1] == c then Some(|s| - 1)
    else
      var r := FindLast(s[..|s| - 1], c);
      assert r.Some? ==> s[r.value + 1..] == s[..|s| - 1][r.value + 1..] + [s[|s| - 1]];
      assert r.None? ==> s == s[..|s| - 1] + [s[|s| - 1]];
      r
  }

  /** The request target: everything before the first space. */
  function UriPath(uri: string): (path: string)
    ensures path <= uri && ' ' !in path
    ensures |path| == |uri| || uri[|path|] == ' '
  {
    uri[..FindFirst(uri, ' ')]
  }

  /** `get_command_type_from_uri`: the last `/`-separated segment of the
      request target. `npos + 1` wraps to 0, so a target without `/` is
      returned whole. */
  function GetCommandTypeFromUri(uri: string): (command: string)
    ensures ' ' !in command && '/' !in command
    ensures |command| <= |UriPath(uri)|
    ensures command == UriPath(uri)[|UriPath(uri)| - |command|..]
    ensures command == UriPath(uri) || UriPath(uri)[|UriPath(uri)| - |command| - 1] == '/'
  {
    var path := UriPath(uri);
    match FindLast(path, '/')
    case None => path
    case Some(p) => path[p + 1..]
  }

  // ---------------------------------------------------------------------
  // gen_result_http_header
  // ---------------------------------------------------------------------

  const CRLF: string := "\r\n"

  /** `gen_result_http_header`: status line, Content-Length and a JSON
      Content-Type, ended by an empty line. */
  function GenResultHttpHeader(statusCode: int, status: string, contentLen: nat): string {
    var lengthLine := "Content-Length: " + NatToString(contentLen) + CRLF;
    var typeLines := "Content-Type: application/json" + CRLF + CRLF;
    "HTTP/1.1 " + IntToString(statusCode) + " " + status + CRLF + lengthLine + typeLines
  }

  /** The header opens with the `HTTP/1.1 ` status line and ends with the
      empty line that separates it from the body. */
  lemma {:induction false} HeaderFraming(statusCode: int, status: string, contentLen: nat)
    ensures var header := GenResultHttpHeader(statusCode, status, contentLen);
      |header| >= 13 && header[..9] == "HTTP/1.1 " && header[|header| - 4..] == CRLF + CRLF
  {
  }

  /** Reads the status code back out of a status line `HTTP/1.1 <code> ...`. */
  function StatusCodeOf(header: string): Option<nat> {
    if |header| < 9 || header[..9] != "HTTP/1.1 " then None
    else
      var rest := header[9..];
      var digits := rest[..FindFirst(rest, ' ')];
      if digits != [] && AllDigits(digits) then Some(DigitsValue(digits)) else None
  }

  /** Reads the Content-Length value back out of a header whose status line
      ends at the first CRLF. */
  function ContentLengthOf(header: string): Option<nat> {
    var afterStatus := header[FindFirst(header, '\r')..];
    if |afterStatus| < 18 || afterStatus[..18] != CRLF + "Content-Length: " then None
    else
      var rest := afterStatus[18..];
      var digits := rest[..FindFirst(rest, '\r')];
      if digits != [] && AllDigits(digits) then Some(DigitsValue(digits)) else None
  }

  lemma {:induction false} FindFirstOfPrefixed(a: string, c: char, b: string)
    requires c !in a
    ensures FindFirst(a + b, c) == |a| + FindFirst(b, c)
  {
    if a == [] {
      assert a + b == b;
    } else {
      assert (a + b)[0] == a[0] != c;
      assert (a + b)[1..] == a[1..] + b;
      assert c !in a[1..];
      FindFirstOfPrefixed(a[1..], c, b);
    }
  }

  lemma {:induction false} DigitsExclude(s: string, c: char)
    requires AllDigits(s) && !IsDigit(c)
    ensures c !in s
  {
    forall i | 0 <= i < |s| ensures s[i] != c { assert IsDigit(s[i]); }
  }

  /** The status code is found between the protocol name and the next space. */
  lemma {:induction false} StatusCodeAfterProtocol(code: string, tail: string)
    requires AllDigits(code) && code != [] && tail != [] && tail[0] == ' '
    ensures StatusCodeOf("HTTP/1.1 " + (code + tail)) == Some(DigitsValue(code))
  {
    var h := "HTTP/1.1 " + (code + tail);
    assert h[..9] == "HTTP/1.1 ";
    var rest := h[9..];
    assert rest == code + tail;
    DigitsExclude(code, ' ');
    FindFirstOfPrefixed(code, ' ', tail);
    assert FindFirst(tail, ' ') == 0;
    assert FindFirst(rest, ' ') == |code|;
    assert rest[..|code|] == code;
  }

  /** Concatenation regrouped around the second piece. */
  lemma {:induction false} RegroupAfter(a: string, b: string, c: string, d: string, e: string, f: string, g: string)
    ensures a + b + c + d + e + f + g == a + (b + (c + d + e + f + g))
  {
  }

  /** The status line carries the (non-negative) code it was built from,
      whatever body follows the header. */
  lemma {:induction false} HeaderStatusCodeRoundTrip(statusCode: nat, status: string, contentLen: nat, body: string)
    ensures StatusCodeOf(GenResultHttpHeader(statusCode, status, contentLen) + body) == Some(statusCode)
  {
    var code := NatToString(statusCode);
    var lengthLine := "Content-Length: " + NatToString(contentLen) + CRLF;
    var typeLines := "Content-Type: application/json" + CRLF + CRLF;
    var tail := " " + status + CRLF + lengthLine + typeLines;
    RegroupAfter("HTTP/1.1 ", code, " ", status, CRLF, lengthLine, typeLines);
    assert GenResultHttpHeader(statusCode, status, contentLen) + body == "HTTP/1.1 " + (code + (tail + body));
    StatusCodeAfterProtocol(code, tail + body);
    NatToStringValue(statusCode);
  }

  /** The Content-Length field is found after any status line free of CR. */
  lemma {:induction false} ContentLengthAfterStatusLine(statusLine: string, len: string, last: string)
    requires '\r' !in statusLine && AllDigits(len) && len != [] && last != [] && last[0] == '\r'
    ensures ContentLengthOf(statusLine + (CRLF + "Content-Length: " + (len + last))) == Some(DigitsValue(len))
  {
    var tail := CRLF + "Content-Length: " + (len + last);
    var h := statusLine + tail;
    FindFirstOfPrefixed(statusLine, '\r', tail);
    assert FindFirst(tail, '\r') == 0;
    var afterStatus := h[FindFirst(h, '\r')..];
    assert afterStatus == tail;
    assert afterStatus[..18] == CRLF + "Content-Length: ";
    var rest := afterStatus[18..];
    assert rest == len + last;
    DigitsExclude(len, '\r');
    FindFirstOfPrefixed(len, '\r', last);
    assert FindFirst(rest, '\r') == |len|;
    assert rest[..|len|] == len;
  }

  /** The Content-Length line carries the length the header was built from,
      whatever body follows, provided the status text has no CR in it. */
  lemma {:induction false} HeaderContentLengthRoundTrip(statusCode: int, status: string, contentLen: nat, body: string)
    requires '\r' !in status
    ensures ContentLengthOf(GenResultHttpHeader(statusCode, status, contentLen) + body) == Some(contentLen)
  {
    var len := NatToString(contentLen);
    var code := IntToString(statusCode);
    var statusLine := "HTTP/1.1 " + code + " " + status;
    var last := CRLF + "Content-Type: application/json" + CRLF + CRLF;
    assert GenResultHttpHeader(statusCode, status, contentLen) + body
      == statusLine + (CRLF + "Content-Length: " + (len + (last + body)));
    assert '\r' !in code by {
      DigitsExclude(if statusCode < 0 then NatToString(-statusCode) else NatToString(statusCode), '\r');
    }
    assert '\r' !in statusLine;
    ContentLengthAfterStatusLine(statusLine, len, last + body);
    NatToStringValue(contentLen);
  }

  // ---------------------------------------------------------------------
  // gen_neighbor_json_result
  // ---------------------------------------------------------------------

  /** The identifiers in decimal, separated by commas, no trailing comma. */
  function JoinIds(ids: seq<u64>): string {
    if |ids| == 0 then ""
    else if |ids| == 1 then NatToString(ids[0])
    else JoinIds(ids[..|ids| - 1]) + "," + NatToString(ids[|ids| - 1])
  }

  /** What the append loop holds after `ids`: every identifier followed by a
      comma. */
  function CommaTerminated(ids: seq<u64>): string {
    if ids == [] then "" else CommaTerminated(ids[..|ids| - 1]) + NatToString(ids[|ids| - 1]) + ","
  }

  lemma {:induction false} CommaTerminatedIsJoinPlusComma(ids: seq<u64>)
    requires ids != []
    ensures CommaTerminated(ids) == JoinIds(ids) + ","
  {
    if |ids| > 1 {
      CommaTerminatedIsJoinPlusComma(ids[..|ids| - 1]);
    } else {
      assert ids[..0] == [];
    }
  }

  /** The reply to `get_neighbors`: `{"node_id": N,"neighbors": [a,b,...]}`. */
  function NeighborJson(node: u64, nodes: seq<u64>): string {
    "{\"node_id\": " + NatToString(node) + ",\"neighbors\": [" + JoinIds(nodes) + "]}"
  }

  lemma {:induction false} NeighborJsonPieces(id: string, list: string)
    ensures "{" + ("\"node_id\": " + id + "," + "\"neighbors\": " + ("[" + list + "]")) + "}"
      == "{\"node_id\": " + id + ",\"neighbors\": [" + list + "]}"
  {
  }

  /** `gen_neighbor_json_result`: the append loop, the trailing comma dropped,
      then the brackets and braces. */
  method GenNeighborJsonResult(node: u64, nodes: seq<u64>) returns (json: string)
    ensures json == NeighborJson(node, nodes)
  {
    json := "\"node_id\": " + NatToString(node) + ",";
    var neighbors := "";
    var i := 0;
    while i < |nodes|
      invariant 0 <= i <= |nodes|
      invariant neighbors == CommaTerminated(nodes[..i])
    {
      assert nodes[..i + 1][..i] == nodes[..i];
      neighbors := neighbors + NatToString(nodes[i]) + ",";
      i := i + 1;
    }
    assert nodes[..i] == nodes;
    if neighbors != [] {
      CommaTerminatedIsJoinPlusComma(nodes);
      neighbors := neighbors[..|neighbors| - 1];
    }
    assert neighbors == JoinIds(nodes);
    neighbors := "[" + neighbors + "]";
    json := json + "\"neighbors\": " + neighbors;
    json := "{" + json + "}";
    NeighborJsonPieces(NatToString(node), JoinIds(nodes));
  }

  /** Reads a comma-separated list of decimal identifiers, splitting at the
      last comma first. */
  function ParseIds(s: string): seq<nat>
    decreases |s|
  {
    if s == [] then []
    else match FindLast(s, ',')
      case None => [if AllDigits(s) then DigitsValue(s) else 0]
      case Some(p) =>
        var last := s[p + 1..];
        ParseIds(s[..p]) + [if AllDigits(last) then DigitsValue(last) else 0]
  }

  /** The neighbour list reads back as the identifiers it was built from, in
      their order; an empty list is the empty text. */
  lemma {:induction false} JoinIdsRoundTrip(ids: seq<u64>)
    ensures ParseIds(JoinIds(ids)) == ids
  {
    if |ids| == 1 {
      DigitsExclude(NatToString(ids[0]), ',');
      NatToStringValue(ids[0]);
    } else if |ids| > 1 {
      var front, last := JoinIds(ids[..|ids| - 1]), NatToString(ids[|ids| - 1]);
      var s := JoinIds(ids);
      assert s == front + "," + last;
      DigitsExclude(last, ',');
      assert FindLast(s, ',') == Some(|front|) by {
        assert s[|front|] == ',';
        assert s[|front| + 1..] == last;
      }
      assert s[..|front|] == front;
      JoinIdsRoundTrip(ids[..|ids| - 1]);
      NatToStringValue(ids[|ids| - 1]);
      assert ids == ids[..|ids| - 1] + [ids[|ids| - 1]];
    }
  }

  /** A non-empty neighbour list does not end in a comma. */
  lemma {:induction false} JoinIdsNoTrailingComma(ids: seq<u64>)
    requires ids != []
    ensures JoinIds(ids) != [] && JoinIds(ids)[|JoinIds(ids)| - 1] != ','
  {
    var last := NatToString(ids[|ids| - 1]);
    assert IsDigit(last[|last| - 1]);
    if |ids| > 1 {
      assert JoinIds(ids) == JoinIds(ids[..|ids| - 1]) + "," + last;
    }
  }
}
