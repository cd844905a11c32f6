/** Command strings: the `curl` callback the generated script runs against the
    internal HTTP API (`_getApiUrlCommand`), and the text `command()` writes to the
    engine's control socket, together with the trimming of the lines it reads back. */
module Commands {
  import opened Text
  import Ports

  /** An ordered PHP array of form fields, key => value. */
  type Params = seq<(string, string)>

  predicate HasKey(ps: Params, k: string) {
    exists i :: 0 <= i < |ps| && ps[i].0 == k
  }

  /** `$params[k] = v`: an existing key keeps its position and takes the new
      value; a new key is appended at the end. */
  function SetParam(ps: Params, k: string, v: string): (r: Params)
    ensures |r| == |ps| + (if HasKey(ps, k) then 0 else 1)
    ensures forall i :: 0 <= i < |ps| ==> r[i].0 == ps[i].0
    ensures forall i :: 0 <= i < |ps| && ps[i].0 != k ==> r[i] == ps[i]
    ensures forall i :: 0 <= i < |r| && r[i].0 == k ==> r[i].1 == v
    ensures HasKey(r, k)
    ensures !HasKey(ps, k) ==> r[|ps|] == (k, v)
  {
    if HasKey(ps, k) then seq(|ps|, i requires 0 <= i < |ps| => if ps[i].0 == k then (k, v) else ps[i])
    else
      var r := ps + [(k, v)];
      assert r[|ps|].0 == k;
      r
  }

  /** A key not yet present is appended after all existing entries. */
  lemma SetParamAppends(ps: Params, k: string, v: string)
    requires !HasKey(ps, k)
    ensures SetParam(ps, k, v) == ps + [(k, v)]
  {
    var r := SetParam(ps, k, v);
    forall i | 0 <= i < |ps|
      ensures r[i] == ps[i]
    {
      assert ps[i].0 != k;
    }
  }

  /** One ` --form key=value` argument. */
  function FormArg(k: string, v: string): string
  {
    " --form " + k + "=" + v
  }

  /** The ` --form key=value` arguments, in array order. */
  function FormArgs(ps: Params): string
  {
    if |ps| == 0 then "" else FormArgs(ps[..|ps| - 1]) + FormArg(ps[|ps| - 1].0, ps[|ps| - 1].1)
  }

  /** Two parameters give two arguments, the first one first. */
  lemma FormArgsPair(k1: string, v1: string, k2: string, v2: string)
    ensures FormArgs([(k1, v1), (k2, v2)]) == FormArg(k1, v1) + FormArg(k2, v2)
  {
    var ps := [(k1, v1), (k2, v2)];
    assert ps[..1] == [(k1, v1)];
    assert ps[..1][..0] == [];
    assert FormArgs(ps[..1]) == "" + FormArg(k1, v1) == FormArg(k1, v1);
    assert FormArgs(ps) == FormArgs(ps[..1]) + FormArg(k2, v2);
  }

  /** Host of the internal API as seen from the engine. */
  function ApiBase(insideDocker: bool): string
  {
    if insideDocker then "http://nginx" else "http://localhost"
  }

  const CurlPrefix: string := "curl -s --request POST --url "

  /** `_getApiUrlCommand(endpoint, params)`: a POST to the internal API whose form
      fields are the caller's, in order, with `api_auth` set to the station's API
      key; when the caller did not pass `api_auth` it is the last field. */
  function ApiUrlCommand(insideDocker: bool, apiKey: string, endpoint: string, params: Params): (r: string)
    ensures StartsWith(r, CurlPrefix + ApiBase(insideDocker) + endpoint)
    ensures !HasKey(params, "api_auth") ==> EndsWith(r, " --form api_auth=" + apiKey)
    ensures !HasKey(params, "api_auth") ==>
      r == CurlPrefix + ApiBase(insideDocker) + endpoint + FormArgs(params) + " --form api_auth=" + apiKey
  {
    var head := CurlPrefix + ApiBase(insideDocker) + endpoint;
    var r := head + FormArgs(SetParam(params, "api_auth", apiKey));
    assert r[..|head|] == head;
    ApiAuthAppended(head, params, apiKey);
    r
  }

  lemma ApiAuthAppended(head: string, params: Params, apiKey: string)
    ensures !HasKey(params, "api_auth") ==>
      head + FormArgs(SetParam(params, "api_auth", apiKey)) == head + FormArgs(params) + " --form api_auth=" + apiKey
    ensures !HasKey(params, "api_auth") ==>
      EndsWith(head + FormArgs(SetParam(params, "api_auth", apiKey)), " --form api_auth=" + apiKey)
  {
    if !HasKey(params, "api_auth") {
      SetParamAppends(params, "api_auth", apiKey);
      var all := params + [("api_auth", apiKey)];
      assert all[..|all| - 1] == params;
      var tail := " --form api_auth=" + apiKey;
      var r := head + FormArgs(params) + tail;
      assert r[|r| - |tail|..] == tail;
    }
  }

  // ---------------------------------------------------------------------------
  // urldecode
  // ---------------------------------------------------------------------------

  predicate IsHex(c: char) {
    ('0' <= c <= '9') || ('a' <= c <= 'f') || ('A' <= c <= 'F')
  }

  function HexValue(c: char): (v: nat)
    requires IsHex(c)
    ensures v < 16
  {
    if '0' <= c <= '9' then c as int - '0' as int
    else if 'a' <= c <= 'f' then c as int - 'a' as int + 10
    else c as int - 'A' as int + 10
  }

  /** PHP's `urldecode`: `+` is a space, `%` followed by two hex digits is the byte
      they spell, and anything else, a stray `%` included, is copied. */
  function UrlDecode(s: string): string
    decreases |s|
  {
    if |s| == 0 then ""
    else if s[0] == '+' then " " + UrlDecode(s[1..])
    else if s[0] == '%' && |s| >= 3 && IsHex(s[1]) && IsHex(s[2]) then
      [(HexValue(s[1]) * 16 + HexValue(s[2])) as char] + UrlDecode(s[3..])
    else [s[0]] + UrlDecode(s[1..])
  }

  function HexDigit(d: nat): (c: char)
    requires d < 16
    ensures IsHex(c) && HexValue(c) == d
  {
    "0123456789ABCDEF"[d]
  }

  predicate Unreserved(c: char) {
    ('a' <= c <= 'z') || ('A' <= c <= 'Z') || ('0' <= c <= '9') || c == '-' || c == '_' || c == '.' || c == '~'
  }

  /** Percent-encoding of one byte (RFC 3986 style: unreserved characters stay,
      every other byte becomes `%HH`). Characters beyond one byte are copied. */
  function EncodeChar(c: char): string
  {
    if Unreserved(c) || c as int >= 256 then [c]
    else [ '%', HexDigit(c as int / 16), HexDigit(c as int % 16) ]
  }

  function PercentEncode(s: string): string
  {
    if |s| == 0 then "" else EncodeChar(s[0]) + PercentEncode(s[1..])
  }

  /** `urldecode` undoes percent-encoding. */
  lemma {:induction false} UrlDecodeEncode(s: string)
    ensures UrlDecode(PercentEncode(s)) == s
    decreases |s|
  {
    if |s| > 0 {
      var c := s[0];
      var rest := PercentEncode(s[1..]);
      var e := PercentEncode(s);
      UrlDecodeEncode(s[1..]);
      if Unreserved(c) || c as int >= 256 {
        assert e == [c] + rest;
        assert e[1..] == rest;
      } else {
        assert e == EncodeChar(c) + rest;
        assert e[3..] == rest;
        assert (HexValue(e[1]) * 16 + HexValue(e[2])) == c as int;
      }
      assert [c] + s[1..] == s;
    }
  }

  /** Decoding never lengthens the text: each escape shrinks to one character. */
  lemma {:induction false} UrlDecodeNeverLonger(s: string)
    ensures |UrlDecode(s)| <= |s|
    decreases |s|
  {
    if |s| > 0 {
      if s[0] == '%' && |s| >= 3 && IsHex(s[1]) && IsHex(s[2]) {
        UrlDecodeNeverLonger(s[3..]);
      } else {
        UrlDecodeNeverLonger(s[1..]);
      }
    }
  }

  /** Text without `+` or `%` is left alone by `urldecode`. */
  lemma {:induction false} UrlDecodePlain(s: string)
    requires forall i :: 0 <= i < |s| ==> s[i] != '+' && s[i] != '%'
    ensures UrlDecode(s) == s
    decreases |s|
  {
    if |s| > 0 {
      UrlDecodePlain(s[1..]);
      assert [s[0]] + s[1..] == s;
    }
  }

  // ---------------------------------------------------------------------------
  // The control-socket payload of command() and its inverse
  // ---------------------------------------------------------------------------

  /** What `command(cmd)` writes to the control socket: the url-decoded command
      with `\'` turned back into `'` and then `&amp;` into `&`, followed by a
      newline and the `quit` that makes the engine close the session. */
  function ControlPayload(cmd: string): (r: string)
    ensures EndsWith(r, "\nquit\n")
  {
    var body := ReplaceAll(ReplaceAll(UrlDecode(cmd), "\\'", "'"), "&amp;", "&");
    assert (body + "\nquit\n")[|body|..] == "\nquit\n";
    body + "\nquit\n"
  }

  /** Backslash-escaping of single quotes, the escaping the payload undoes. */
  function EscapeQuotes(s: string): string
  {
    if |s| == 0 then "" else (if s[0] == '\'' then "\\'" else [s[0]]) + EscapeQuotes(s[1..])
  }

  /** HTML-escaping of ampersands, the other escaping the payload undoes. */
  function EscapeAmps(s: string): string
  {
    if |s| == 0 then "" else (if s[0] == '&' then "&amp;" else [s[0]]) + EscapeAmps(s[1..])
  }

  /** How a caller has to encode a command so that the engine receives it verbatim. */
  function EncodeCommand(cmd: string): string
  {
    PercentEncode(EscapeQuotes(EscapeAmps(cmd)))
  }

  lemma {:induction false} UnescapeQuotes(s: string)
    ensures ReplaceAll(EscapeQuotes(s), "\\'", "'") == s
    decreases |s|
  {
    if |s| > 0 {
      var rest := EscapeQuotes(s[1..]);
      UnescapeQuotes(s[1..]);
      if s[0] == '\'' {
        assert EscapeQuotes(s) == "\\'" + rest;
        ReplaceAllAtMatch("\\'", "'", rest);
      } else {
        assert EscapeQuotes(s) == [s[0]] + rest;
        EscapeQuotesHead(s[1..]);
        NoEscapedQuoteAt(s[0], rest);
        ReplaceAllNoMatch(s[0], rest, "\\'", "'");
      }
      assert [s[0]] + s[1..] == s;
    }
  }

  /** A character other than a quote, followed by text that does not start with
      a quote, does not start an escaped quote. */
  lemma NoEscapedQuoteAt(c: char, rest: string)
    requires c != '\'' && (|rest| > 0 ==> rest[0] != '\'')
    ensures !StartsWith([c] + rest, "\\'")
  {
    if |rest| > 0 {
      assert ([c] + rest)[1] == rest[0];
    }
  }

  /** Escaped text never starts with a quote, so a backslash that came from the
      original text cannot pair with what follows it. */
  lemma EscapeQuotesHead(s: string)
    ensures |EscapeQuotes(s)| > 0 ==> EscapeQuotes(s)[0] != '\''
  {
  }

  lemma {:induction false} UnescapeAmps(s: string)
    ensures ReplaceAll(EscapeAmps(s), "&amp;", "&") == s
    decreases |s|
  {
    if |s| > 0 {
      var e := EscapeAmps(s);
      var rest := EscapeAmps(s[1..]);
      UnescapeAmps(s[1..]);
      if s[0] == '&' {
        assert e == "&amp;" + rest;
        assert StartsWith(e, "&amp;");
        assert e[5..] == rest;
      } else {
        assert e == [s[0]] + rest;
        assert !StartsWith(e, "&amp;") by {
          if |e| >= 5 {
            assert e[..5][0] == s[0];
          }
        }
        assert e[1..] == rest;
      }
      assert [s[0]] + s[1..] == s;
    }
  }

  /** Round trip: any command, encoded as above, reaches the engine unchanged. */
  lemma ControlPayloadRoundTrip(cmd: string)
    ensures ControlPayload(EncodeCommand(cmd)) == cmd + "\nquit\n"
  {
    UrlDecodeEncode(EscapeQuotes(EscapeAmps(cmd)));
    UnescapeQuotes(EscapeAmps(cmd));
    UnescapeAmps(cmd);
  }

  /** A command with nothing to decode or unescape is sent as it is. */
  predicate Plain(c: char) {
    c != '+' && c != '%' && c != '\\' && c != '&'
  }

  lemma ControlPayloadPlain(cmd: string)
    requires forall i :: 0 <= i < |cmd| ==> Plain(cmd[i])
    ensures ControlPayload(cmd) == cmd + "\nquit\n"
  {
    UrlDecodePlain(cmd);
    ReplaceAbsent(cmd, "\\'", "'");
    ReplaceAbsent(cmd, "&amp;", "&");
  }

  // ---------------------------------------------------------------------------
  // The other end of the control channel
  // ---------------------------------------------------------------------------

  datatype Endpoint = Endpoint(host: string, port: int)

  /** Where `command()` dials: the engine host and the station's telnet port. */
  function ControlEndpoint(insideDocker: bool, stationId: int): (e: Endpoint)
    ensures e.port == Ports.TelnetPort(stationId)
    ensures e.host == (if insideDocker then "stations" else "localhost")
  {
    Endpoint(if insideDocker then "stations" else "localhost", Ports.TelnetPort(stationId))
  }

  /** The response of `command()` from the values its `fgets` calls returned, in
      order (`None` is a call that returned false): every value is trimmed, a
      failed read becomes the empty line. */
  function ResponseLines(fetched: seq<Option<string>>): (r: seq<string>)
    ensures |r| == |fetched|
    ensures forall i :: 0 <= i < |fetched| ==> Tidy(r[i])
    ensures forall i :: 0 <= i < |fetched| ==> fetched[i].None? ==> r[i] == ""
  {
    seq(|fetched|, i requires 0 <= i < |fetched| => TrimmedRead(fetched[i]))
  }

  function TrimmedRead(x: Option<string>): (r: string)
    ensures Tidy(r)
  {
    match x
    case None => ""
    case Some(line) => TrimIsTidy(line); Trim(line)
  }

  /** Every read that returned text padded with whitespace on either side
      contributes exactly the unpadded text, at its own position. */
  lemma ResponseLinesContent(fetched: seq<Option<string>>, i: nat, pre: string, core: string, post: string)
    requires i < |fetched| && fetched[i] == Some(pre + core + post)
    requires AllTrimmed(pre) && AllTrimmed(post) && Tidy(core)
    ensures ResponseLines(fetched)[i] == core
  {
    TrimOfPadded(pre, core, post);
  }

  /** A line the engine sends as `text` plus line ending comes back as `text`. */
  lemma ResponseLineOfText(text: string, ending: string)
    requires Tidy(text) && AllTrimmed(ending)
    ensures ResponseLines([Some(text + ending)]) == [text]
  {
    TrimOfPadded("", text, ending);
    assert "" + text + ending == text + ending;
  }
}
