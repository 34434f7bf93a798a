/** The configuration file `main` reads in cs426_graph_server.cpp: a
    sequence of whitespace-separated `KEY=value` tokens, each split at its
    first `=`, later tokens overriding earlier ones. */
module ServerConfig {
  import opened Utility

  /** The settings `main` keeps: whether to format the log device, the
      HTTP and RPC ports, the device file and the next server's address. */
  datatype Config = Config(
    format: bool,
    mongoosePort: string,
    grpcPort: string,
    devfile: string,
    ipNext: string,
    portNext: string)

  /** The settings before any token is read. */
  const DEFAULT_CONFIG: Config := Config(false, "", "", "", "", "")

  /** A token split at its first `=`. Without one both halves are the whole
      token: `find` returns `npos`, so the left part runs to the end, and
      `npos + 1` wraps to 0, so the right part starts at the beginning. */
  function SplitSetting(token: string): (halves: (string, string))
    ensures '=' in token ==>
      halves.0 + "=" + halves.1 == token && '=' !in halves.0
    ensures '=' !in token ==> halves == (token, token)
  {
    var pos := FindFirst(token, '=');
    if pos < |token| then
      assert token == token[..pos] + "=" + token[pos + 1..];
      (token[..pos], token[pos + 1..])
    else (token, token)
  }

  /** The effect of one token. Unknown keys are ignored. */
  function ApplySetting(c: Config, token: string): Config {
    var (left, right) := SplitSetting(token);
    if left == "FORMAT" then c.(format := right != "0")
    else if left == "MONGOOSE_PORT" then c.(mongoosePort := right)
    else if left == "GRPC_PORT" then c.(grpcPort := right)
    else if left == "DEVFILE" then c.(devfile := right)
    else if left == "IP_NEXT" then c.(ipNext := right)
    else if left == "PORT_NEXT" then c.(portNext := right)
    else c
  }

  /** The settings after reading `tokens` in order. */
  function ConfigOf(tokens: seq<string>): Config {
    if tokens == [] then DEFAULT_CONFIG
    else ApplySetting(ConfigOf(tokens[..|tokens| - 1]), tokens[|tokens| - 1])
  }

  /** The token loop of `main`. */
  method ParseConfig(tokens: seq<string>) returns (c: Config)
    ensures c == ConfigOf(tokens)
  {
    c := DEFAULT_CONFIG;
    var i := 0;
    while i < |tokens|
      invariant 0 <= i <= |tokens|
      invariant c == ConfigOf(tokens[..i])
    {
      var line := tokens[i];
      var pos := FindFirst(line, '=');
      var left, right := line, line;
      if pos < |line| {
        left, right := line[..pos], line[pos + 1..];
      }
      if left == "FORMAT" {
        c := c.(format := right != "0");
      } else if left == "MONGOOSE_PORT" {
        c := c.(mongoosePort := right);
      } else if left == "GRPC_PORT" {
        c := c.(grpcPort := right);
      } else if left == "DEVFILE" {
        c := c.(devfile := right);
      } else if left == "IP_NEXT" {
        c := c.(ipNext := right);
      } else if left == "PORT_NEXT" {
        c := c.(portNext := right);
      }
      assert tokens[..i + 1][..i] == tokens[..i];
      i := i + 1;
    }
    assert tokens[..i] == tokens;
  }

  /** A client to the next server is created iff IP_NEXT is not "-1". */
  predicate HasDownstream(c: Config) {
    c.ipNext != "-1"
  }

  /** The address the client to the next server connects to. */
  function DownstreamAddress(c: Config): string {
    c.ipNext + ":" + c.portNext
  }

  /** `KEY=value` splits into the key and everything after the first `=`,
      further `=` signs included. */
  lemma {:induction false} SplitAtFirstEquals(key: string, value: string)
    requires '=' !in key
    ensures SplitSetting(key + "=" + value) == (key, value)
  {
    var t := key + "=" + value;
    assert t == key + ("=" + value);
    FindFirstOfPrefixed(key, '=', "=" + value);
    assert FindFirst("=" + value, '=') == 0;
    assert t[..|key|] == key && t[|key| + 1..] == value;
  }

  /** The last FORMAT token decides: only the value "0" turns formatting
      off, and no other setting is touched. */
  lemma {:induction false} FormatToken(tokens: seq<string>, value: string)
    ensures var c := ConfigOf(tokens + ["FORMAT=" + value]);
      var before := ConfigOf(tokens);
      c == before.(format := value != "0")
  {
    var all := tokens + ["FORMAT=" + value];
    assert all[..|all| - 1] == tokens && all[|all| - 1] == "FORMAT=" + value;
    assert '=' !in "FORMAT";
    SplitAtFirstEquals("FORMAT", value);
    assert "FORMAT" + "=" + value == "FORMAT=" + value;
  }

  /** The last IP_NEXT token decides whether there is a next server. */
  lemma {:induction false} IpNextToken(tokens: seq<string>, value: string)
    ensures var c := ConfigOf(tokens + ["IP_NEXT=" + value]);
      (HasDownstream(c) <==> value != "-1")
      && c == ConfigOf(tokens).(ipNext := value)
  {
    var all := tokens + ["IP_NEXT=" + value];
    assert all[..|all| - 1] == tokens && all[|all| - 1] == "IP_NEXT=" + value;
    assert '=' !in "IP_NEXT";
    SplitAtFirstEquals("IP_NEXT", value);
    assert "IP_NEXT" + "=" + value == "IP_NEXT=" + value;
  }

  /** A bare `FORMAT` token, with no `=`, turns formatting on: its right
      half is the whole token, which is not "0". */
  lemma {:induction false} BareFormatTokenFormats(tokens: seq<string>)
    ensures ConfigOf(tokens + ["FORMAT"]).format
  {
    var all := tokens + ["FORMAT"];
    assert all[..|all| - 1] == tokens;
    assert FindFirst("FORMAT", '=') == 6;
  }

  /** A token whose key is none of the six is ignored. */
  lemma {:induction false} UnknownKeyIgnored(tokens: seq<string>, key: string, value: string)
    requires '=' !in key
    requires key !in {"FORMAT", "MONGOOSE_PORT", "GRPC_PORT", "DEVFILE", "IP_NEXT", "PORT_NEXT"}
    ensures ConfigOf(tokens + [key + "=" + value]) == ConfigOf(tokens)
  {
    var all := tokens + [key + "=" + value];
    assert all[..|all| - 1] == tokens && all[|all| - 1] == key + "=" + value;
    SplitAtFirstEquals(key, value);
  }
}
