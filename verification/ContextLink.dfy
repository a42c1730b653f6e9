/** Reading the link that carries a browser selection to the command line. */
module ContextLink {
  import opened Wrappers
  import opened Text
  import Utf8

  type byte = Utf8.byte

  datatype Handoff = Handoff(id: string, sourceUrl: string, selectedText: string)

  datatype LinkError = BadPrefix | BadEncoding | WrongVersion | BadIdentifier | BadSource | BadText

  const PREFIX := "agi-context://v1?"
  const VERSION := "1"
  const MAX_TEXT: nat := 2000
  const MAX_URL: nat := 2048

  // ----- Percent-encoding -----

  function HexValue(b: byte): Option<byte> {
    if 48 <= b <= 57 then Some(b - 48)
    else if 65 <= b <= 70 then Some(b - 55)
    else if 97 <= b <= 102 then Some(b - 87)
    else None
  }

  /** A percent sign and two hex digits are a byte; anything else stands for itself. */
  function PercentDecode(bytes: seq<byte>): seq<byte>
    decreases |bytes|
  {
    if bytes == [] then []
    else if bytes[0] == 37 && |bytes| >= 3 && HexValue(bytes[1]).Some? && HexValue(bytes[2]).Some? then
      [HexValue(bytes[1]).value * 16 + HexValue(bytes[2]).value] + PercentDecode(bytes[3..])
    else [bytes[0]] + PercentDecode(bytes[1..])
  }

  function PlusToSpace(s: string): string {
    Map(c => if c == '+' then ' ' else c, s)
  }

  function DecodeValue(value: string): Option<string> {
    Utf8.Decode(PercentDecode(Utf8.Encode(PlusToSpace(value))))
  }

  // ----- What a link may carry -----

  predicate IsIdChar(c: char) {
    'a' <= c <= 'z' || 'A' <= c <= 'Z' || '0' <= c <= '9' || c == '_' || c == '-'
  }

  predicate IsHandoffId(value: string) {
    var rest := StripPrefix(value, "ctx_");
    rest.Some? && 8 <= |rest.value| <= 80 && forall i | 0 <= i < |rest.value| :: IsIdChar(rest.value[i])
  }

  predicate IsSourceUrl(value: string) {
    value != "" && |Utf8.Encode(value)| <= MAX_URL &&
    var rest :=
      if StartsWith(value, "https://") then value[8..]
      else if StartsWith(value, "http://") then value[7..] else "";
    var host := rest[..IndexOf(rest, '/')];
    host != "" && '@' !in host && '?' !in rest && '#' !in rest && ' ' !in rest
  }

  /** A letter or digit of ASCII, an underscore or a hyphen. */
  predicate Wordly(c: char) {
    var n := c as int;
    48 <= n <= 57 || 65 <= n <= 90 || 97 <= n <= 122 || n == 95 || n == 45
  }

  /** The identifier of a handoff that ends in `rest`. */
  predicate EndsId(id: string, rest: string) {
    id == "ctx_" + rest && 8 <= |rest| <= 80 && forall i | 0 <= i < |rest| :: Wordly(rest[i])
  }

  ghost predicate GoodId(id: string) {
    exists rest :: EndsId(id, rest)
  }

  lemma IdExactly(id: string)
    ensures IsHandoffId(id) <==> GoodId(id)
  {
    if IsHandoffId(id) {
      assert id == "ctx_" + id[4..];
      assert EndsId(id, id[4..]);
    }
    if GoodId(id) {
      var rest :| EndsId(id, rest);
      assert id[4..] == rest && "ctx_" <= id;
    }
  }

  /** A page of a site over HTTP: no user, no query, no fragment, no space. */
  predicate PageOf(url: string, scheme: string, host: string, path: string) {
    && url == scheme + (host + path) && (scheme == "https://" || scheme == "http://")
    && host != "" && '/' !in host && '@' !in host && (path == "" || path[0] == '/')
    && forall i | 0 <= i < |host + path| :: (host + path)[i] !in ['?', '#', ' ']
  }

  ghost predicate GoodUrl(url: string) {
    |Utf8.Encode(url)| <= 2048 && exists scheme, host, path :: PageOf(url, scheme, host, path)
  }

  lemma SchemeGoes(url: string, scheme: string, rest: string)
    requires url == scheme + rest && (scheme == "https://" || scheme == "http://")
    ensures scheme == "https://" ==> StartsWith(url, "https://") && url[8..] == rest
    ensures scheme == "http://" ==> !StartsWith(url, "https://") && StartsWith(url, "http://") && url[7..] == rest
  {
    if scheme == "http://" { assert url[4] == ':' != "https://"[4]; }
  }

  lemma HostGoes(host: string, path: string)
    requires '/' !in host && (path == "" || path[0] == '/')
    ensures (host + path)[..IndexOf(host + path, '/')] == host
  {
    if path == "" {
      assert host + path == host;
    } else {
      assert host + path == host + ['/'] + path[1..];
      IndexOfFirst(host, '/', path[1..]);
    }
  }

  lemma NoneOfThree(s: string)
    ensures (forall i | 0 <= i < |s| :: s[i] !in ['?', '#', ' ']) <==> '?' !in s && '#' !in s && ' ' !in s
  {
  }

  /** What is behind the scheme. */
  function BehindScheme(url: string): string {
    if StartsWith(url, "https://") then url[8..] else if StartsWith(url, "http://") then url[7..] else ""
  }

  predicate GoodRest(rest: string) {
    var host := rest[..IndexOf(rest, '/')];
    host != "" && '@' !in host && '?' !in rest && '#' !in rest && ' ' !in rest
  }

  lemma SourceIs(url: string)
    ensures IsSourceUrl(url) <==> |Utf8.Encode(url)| <= 2048 && GoodRest(BehindScheme(url))
  {
  }

  lemma GoodRestSplits(rest: string) returns (host: string, path: string)
    requires GoodRest(rest)
    ensures rest == host + path && host != "" && '/' !in host && '@' !in host && (path == "" || path[0] == '/')
    ensures forall i | 0 <= i < |host + path| :: (host + path)[i] !in ['?', '#', ' ']
  {
    var i := IndexOf(rest, '/');
    host, path := rest[..i], rest[i..];
    assert rest == host + path;
    NoneOfThree(rest);
  }

  lemma GoodRestJoins(host: string, path: string)
    requires host != "" && '/' !in host && '@' !in host && (path == "" || path[0] == '/')
    requires forall i | 0 <= i < |host + path| :: (host + path)[i] !in ['?', '#', ' ']
    ensures GoodRest(host + path)
  {
    HostGoes(host, path);
    NoneOfThree(host + path);
  }

  lemma SourceIsPage(url: string)
    requires IsSourceUrl(url)
    ensures GoodUrl(url)
  {
    SourceIs(url);
    var scheme := if StartsWith(url, "https://") then "https://" else "http://";
    var host, path := GoodRestSplits(BehindScheme(url));
    assert url == scheme + BehindScheme(url);
    assert PageOf(url, scheme, host, path);
  }

  lemma PageIsSource(url: string, scheme: string, host: string, path: string)
    requires |Utf8.Encode(url)| <= 2048 && PageOf(url, scheme, host, path)
    ensures IsSourceUrl(url)
  {
    SourceIs(url);
    SchemeGoes(url, scheme, host + path);
    GoodRestJoins(host, path);
  }

  lemma UrlExactly(url: string)
    ensures IsSourceUrl(url) <==> GoodUrl(url)
  {
    if IsSourceUrl(url) { SourceIsPage(url); }
    if GoodUrl(url) {
      var scheme, host, path :| PageOf(url, scheme, host, path);
      PageIsSource(url, scheme, host, path);
    }
  }

  // ----- Reading a link -----

  datatype Fields = Fields(version: Option<string>, id: Option<string>, url: Option<string>, text: Option<string>)

  const NO_FIELDS := Fields(None, None, None, None)

  predicate IsKnown(key: string) {
    key == "v" || key == "id" || key == "url" || key == "text"
  }

  function SetField(f: Fields, key: string, value: string): Fields {
    if key == "v" then f.(version := Some(value))
    else if key == "id" then f.(id := Some(value))
    else if key == "url" then f.(url := Some(value))
    else if key == "text" then f.(text := Some(value))
    else f
  }

  /** A pair without an equals sign, or with a key of no meaning, is passed over. */
  function ReadPair(pair: string, f: Fields): Option<Fields> {
    var i := IndexOf(pair, '=');
    if i == |pair| || !IsKnown(pair[..i]) then Some(f)
    else match DecodeValue(pair[i + 1..])
      case None => None
      case Some(value) => Some(SetField(f, pair[..i], value))
  }

  function ReadPairs(pairs: seq<string>, f: Fields): Option<Fields>
    decreases |pairs|
  {
    if pairs == [] then Some(f)
    else match ReadPair(pairs[0], f)
      case None => None
      case Some(next) => ReadPairs(pairs[1..], next)
  }

  function OrEmpty(value: Option<string>): string {
    if value.Some? then value.value else ""
  }

  function CheckFields(f: Fields): Result<Handoff, LinkError> {
    var text := Trim(OrEmpty(f.text));
    if f.version != Some(VERSION) then Err(WrongVersion)
    else if !IsHandoffId(OrEmpty(f.id)) then Err(BadIdentifier)
    else if !IsSourceUrl(OrEmpty(f.url)) then Err(BadSource)
    else if text == "" || |text| > MAX_TEXT then Err(BadText)
    else Ok(Handoff(OrEmpty(f.id), OrEmpty(f.url), text))
  }

  function Parse(raw: string): Result<Handoff, LinkError> {
    match StripPrefix(Trim(raw), PREFIX)
    case None => Err(BadPrefix)
    case Some(query) =>
      match ReadPairs(Split(query, '&'), NO_FIELDS)
      case None => Err(BadEncoding)
      case Some(fields) => CheckFields(fields)
  }

  method TakePair(pair: string, f: Fields) returns (r: Option<Fields>)
    ensures r == ReadPair(pair, f)
  {
    r := Some(f);
    var i := IndexOf(pair, '=');
    if i < |pair| {
      var key := pair[..i];
      if key == "v" || key == "id" || key == "url" || key == "text" {
        var value := DecodeValue(pair[i + 1..]);
        if value.None? {
          r := None;
        } else if key == "v" {
          r := Some(f.(version := value));
        } else if key == "id" {
          r := Some(f.(id := value));
        } else if key == "url" {
          r := Some(f.(url := value));
        } else {
          r := Some(f.(text := value));
        }
      }
    }
  }

  lemma ReadPairsStep(pairs: seq<string>, n: nat, f: Fields)
    requires n < |pairs|
    ensures ReadPairs(pairs[n..], f) ==
            match ReadPair(pairs[n], f) case None => None case Some(next) => ReadPairs(pairs[n + 1..], next)
  {
    assert pairs[n..][1..] == pairs[n + 1..];
  }

  method TakePairs(pairs: seq<string>) returns (r: Option<Fields>)
    ensures r == ReadPairs(pairs, NO_FIELDS)
  {
    var fields := NO_FIELDS;
    for n := 0 to |pairs|
      invariant ReadPairs(pairs, NO_FIELDS) == ReadPairs(pairs[n..], fields)
    {
      ReadPairsStep(pairs, n, fields);
      var next := TakePair(pairs[n], fields);
      if next.None? {
        return None;
      }
      fields := next.value;
    }
    r := Some(fields);
  }

  method ParseContextHandoffUrl(raw: string) returns (r: Result<Handoff, LinkError>)
    ensures r == Parse(raw)
  {
    var query := StripPrefix(Trim(raw), PREFIX);
    if query.None? {
      return Err(BadPrefix);
    }
    var fields := TakePairs(Split(query.value, '&'));
    if fields.None? {
      return Err(BadEncoding);
    }
    r := CheckFields(fields.value);
  }

  /** Every accepted link carries fields within the stated limits. */
  lemma AcceptedIsWithinLimits(raw: string)
    ensures Parse(raw).Ok? ==>
              var h := Parse(raw).value;
              && GoodId(h.id) && GoodUrl(h.sourceUrl)
              && Trimmed(h.selectedText) && 1 <= |h.selectedText| <= 2000
  {
    if Parse(raw).Ok? {
      IdExactly(Parse(raw).value.id);
      UrlExactly(Parse(raw).value.sourceUrl);
      var fields := ReadPairs(Split(StripPrefix(Trim(raw), PREFIX).value, '&'), NO_FIELDS).value;
      TrimIsTrimmed(OrEmpty(fields.text));
    }
  }

  // ----- Writing a link -----

  /** The ASCII characters an encoder may leave as they are. */
  predicate Keepable(b: byte) {
    33 <= b < 127 && b != 37 && b != 38 && b != 43
  }

  function HexDigit(v: int, upper: bool): (c: char)
    requires 0 <= v < 16
    ensures c as int < 128 && HexValue(c as int) == Some(v)
    ensures c != '+' && c != '&' && !IsWhitespace(c)
  {
    if v < 10 then (48 + v) as char else if upper then (55 + v) as char else (87 + v) as char
  }

  /** The hex digits, in either case, are all the bytes that have a value. */
  lemma HexExactly(b: byte)
    ensures HexValue(b).Some? ==>
              && HexValue(b).value < 16
              && (b == HexDigit(HexValue(b).value, true) as int || b == HexDigit(HexValue(b).value, false) as int)
  {
  }

  /** How an encoder writes a byte: spaces as plus signs, a free choice of which
      harmless characters it keeps, and hex digits in either case. */
  function EncodeByte(b: byte, keep: byte -> bool, upper: bool): string {
    if b == 32 then "+"
    else if keep(b) && Keepable(b) then [b as char]
    else ['%', HexDigit(b / 16, upper), HexDigit(b % 16, upper)]
  }

  function EncodeBytes(bytes: seq<byte>, keep: byte -> bool, upper: bool): string {
    if bytes == [] then "" else EncodeByte(bytes[0], keep, upper) + EncodeBytes(bytes[1..], keep, upper)
  }

  function EncodeValue(value: string, keep: byte -> bool, upper: bool): string {
    EncodeBytes(Utf8.Encode(value), keep, upper)
  }

  lemma EncodedByteDecodes(b: byte, keep: byte -> bool, upper: bool, rest: seq<byte>)
    ensures PercentDecode(Utf8.Encode(PlusToSpace(EncodeByte(b, keep, upper))) + rest) == [b] + PercentDecode(rest)
  {
    var written := PlusToSpace(EncodeByte(b, keep, upper));
    if b == 32 {
      assert written == " ";
      assert Utf8.Encode(written) == [32];
      Cons(32, rest);
    } else if keep(b) && Keepable(b) {
      assert written == [b as char];
      assert Utf8.Encode(written) == [b];
      Cons(b, rest);
    } else {
      var high, low := HexDigit(b / 16, upper), HexDigit(b % 16, upper);
      assert written == ['%', high, low];
      AsciiBytes('%', high, low);
      var bytes: seq<byte> := [37, high as int, low as int] + rest;
      assert bytes[3..] == rest && bytes[0] == 37 && bytes[1] == high as int && bytes[2] == low as int;
      assert b == b / 16 * 16 + b % 16;
    }
  }

  lemma AsciiBytes(a: char, b: char, c: char)
    requires a as int < 128 && b as int < 128 && c as int < 128
    ensures Utf8.Encode([a, b, c]) == [a as int, b as int, c as int]
  {
    assert [a, b, c][1..] == [b, c] && [b, c][1..] == [c];
    assert Utf8.Encode([c]) == [c as int];
    assert Utf8.Encode([b, c]) == [b as int, c as int];
  }

  lemma {:induction false} EncodedBytesDecode(bytes: seq<byte>, keep: byte -> bool, upper: bool)
    ensures PercentDecode(Utf8.Encode(PlusToSpace(EncodeBytes(bytes, keep, upper)))) == bytes
  {
    if bytes == [] {
    } else {
      var first, rest := EncodeByte(bytes[0], keep, upper), EncodeBytes(bytes[1..], keep, upper);
      MapSum(c => if c == '+' then ' ' else c, first, rest);
      Utf8.EncodeSum(PlusToSpace(first), PlusToSpace(rest));
      EncodedByteDecodes(bytes[0], keep, upper, Utf8.Encode(PlusToSpace(rest)));
      EncodedBytesDecode(bytes[1..], keep, upper);
      assert bytes == [bytes[0]] + bytes[1..];
    }
  }

  lemma EncodedValueDecodes(value: string, keep: byte -> bool, upper: bool)
    ensures DecodeValue(EncodeValue(value, keep, upper)) == Some(value)
  {
    EncodedBytesDecode(Utf8.Encode(value), keep, upper);
    Utf8.DecodeOfEncoded(value);
  }

  lemma {:induction false} EncodedBytesAreSafe(bytes: seq<byte>, keep: byte -> bool, upper: bool)
    ensures '&' !in EncodeBytes(bytes, keep, upper)
    ensures forall i | 0 <= i < |EncodeBytes(bytes, keep, upper)| :: !IsWhitespace(EncodeBytes(bytes, keep, upper)[i])
  {
    if bytes == [] {
    } else {
      EncodedBytesAreSafe(bytes[1..], keep, upper);
      assert forall i | 0 <= i < |EncodeByte(bytes[0], keep, upper)| ::
        EncodeByte(bytes[0], keep, upper)[i] != '&' && !IsWhitespace(EncodeByte(bytes[0], keep, upper)[i]);
    }
  }

  /** A parameter to write: a key and the value to encode. */
  datatype Param = Param(key: string, value: string)

  function PairText(p: Param, keep: byte -> bool, upper: bool): string {
    p.key + ['='] + EncodeValue(p.value, keep, upper)
  }

  function PairWriter(keep: byte -> bool, upper: bool): Param -> string {
    (p: Param) => PairText(p, keep, upper)
  }

  function LinkText(params: seq<Param>, keep: byte -> bool, upper: bool): string {
    PREFIX + Join(Map(PairWriter(keep, upper), params), "&")
  }

  predicate PlainKey(key: string) {
    forall i | 0 <= i < |key| :: key[i] != '&' && key[i] != '=' && !IsWhitespace(key[i])
  }

  /** The fields parameters stand for: the last one of each key counts. */
  function ParamFields(params: seq<Param>, f: Fields): Fields
    decreases |params|
  {
    if params == [] then f else ParamFields(params[1..], SetField(f, params[0].key, params[0].value))
  }

  lemma PairIsPlain(p: Param, keep: byte -> bool, upper: bool)
    requires PlainKey(p.key)
    ensures '&' !in PairText(p, keep, upper)
    ensures forall i | 0 <= i < |PairText(p, keep, upper)| :: !IsWhitespace(PairText(p, keep, upper)[i])
    ensures var i := IndexOf(PairText(p, keep, upper), '=');
      && i == |p.key| < |PairText(p, keep, upper)|
      && PairText(p, keep, upper)[..i] == p.key
      && PairText(p, keep, upper)[i + 1..] == EncodeValue(p.value, keep, upper)
  {
    EncodedBytesAreSafe(Utf8.Encode(p.value), keep, upper);
    IndexOfFirst(p.key, '=', EncodeValue(p.value, keep, upper));
  }

  lemma PairReads(p: Param, keep: byte -> bool, upper: bool, f: Fields)
    requires PlainKey(p.key)
    ensures ReadPair(PairText(p, keep, upper), f) == Some(SetField(f, p.key, p.value))
  {
    PairIsPlain(p, keep, upper);
    EncodedValueDecodes(p.value, keep, upper);
  }

  lemma {:induction false} PairsRead(params: seq<Param>, keep: byte -> bool, upper: bool, f: Fields)
    requires forall i | 0 <= i < |params| :: PlainKey(params[i].key)
    ensures ReadPairs(Map(PairWriter(keep, upper), params), f) == Some(ParamFields(params, f))
    decreases |params|
  {
    if params == [] {
    } else {
      var write := (p: Param) => PairText(p, keep, upper);
      MapCons(write, params[0], params[1..]);
      assert params == [params[0]] + params[1..];
      Cons(write(params[0]), Map(write, params[1..]));
      PairReads(params[0], keep, upper, f);
      PairsRead(params[1..], keep, upper, SetField(f, params[0].key, params[0].value));
    }
  }

  predicate NoSpace(s: string) {
    forall k | 0 <= k < |s| :: !IsWhitespace(s[k])
  }

  lemma {:induction false} JoinHasNoSpace(pairs: seq<string>)
    requires forall i | 0 <= i < |pairs| :: NoSpace(pairs[i])
    ensures NoSpace(Join(pairs, "&"))
  {
    if |pairs| <= 1 {
    } else {
      JoinHasNoSpace(pairs[1..]);
    }
  }

  lemma QueryIsFound(query: string)
    requires NoSpace(query)
    ensures StripPrefix(Trim(PREFIX + query), PREFIX) == Some(query)
  {
    var raw := PREFIX + query;
    assert NoSpace(PREFIX);
    TrimOfTrimmed(raw);
    assert raw[|PREFIX|..] == query;
  }

  lemma ParseOfQuery(query: string)
    requires NoSpace(query)
    ensures Parse(PREFIX + query) ==
            match ReadPairs(Split(query, '&'), NO_FIELDS)
            case None => Err(BadEncoding)
            case Some(fields) => CheckFields(fields)
  {
    QueryIsFound(query);
  }

  /** A link is read as the last value of each of its keys, in whatever order they
      come and whatever else it carries. */
  lemma LinkReadsParams(params: seq<Param>, keep: byte -> bool, upper: bool)
    requires params != [] && forall i | 0 <= i < |params| :: PlainKey(params[i].key)
    ensures Parse(LinkText(params, keep, upper)) == CheckFields(ParamFields(params, NO_FIELDS))
  {
    var pairs := Map(PairWriter(keep, upper), params);
    forall i | 0 <= i < |pairs| ensures '&' !in pairs[i] && NoSpace(pairs[i]) {
      PairIsPlain(params[i], keep, upper);
    }
    SplitOfJoin(pairs, '&');
    JoinHasNoSpace(pairs);
    ParseOfQuery(Join(pairs, "&"));
    PairsRead(params, keep, upper, NO_FIELDS);
  }

  function HandoffParams(h: Handoff): seq<Param> {
    [Param("v", VERSION), Param("id", h.id), Param("url", h.sourceUrl), Param("text", h.selectedText)]
  }

  lemma ParamFieldsCons(p: Param, rest: seq<Param>, f: Fields)
    ensures ParamFields([p] + rest, f) == ParamFields(rest, SetField(f, p.key, p.value))
  {
    Cons(p, rest);
  }

  lemma HandoffFields(h: Handoff)
    ensures ParamFields(HandoffParams(h), NO_FIELDS) ==
            Fields(Some(VERSION), Some(h.id), Some(h.sourceUrl), Some(h.selectedText))
  {
    var text, url, id := Param("text", h.selectedText), Param("url", h.sourceUrl), Param("id", h.id);
    var f1 := Fields(Some(VERSION), None, None, None);
    var f2 := f1.(id := Some(h.id));
    var f3 := f2.(url := Some(h.sourceUrl));
    ParamFieldsCons(Param("v", VERSION), [id] + ([url] + ([text] + [])), NO_FIELDS);
    ParamFieldsCons(id, [url] + ([text] + []), f1);
    ParamFieldsCons(url, [text] + [], f2);
    ParamFieldsCons(text, [], f3);
    assert HandoffParams(h) == [Param("v", VERSION)] + ([id] + ([url] + ([text] + [])));
  }

  /** The text of a link, field by field. */
  lemma LinkTextIs(h: Handoff, keep: byte -> bool, upper: bool)
    ensures LinkText(HandoffParams(h), keep, upper) ==
            "agi-context://v1?" + Join([
              PairText(Param("v", "1"), keep, upper), PairText(Param("id", h.id), keep, upper),
              PairText(Param("url", h.sourceUrl), keep, upper), PairText(Param("text", h.selectedText), keep, upper)],
              "&")
  {
    var pair := PairWriter(keep, upper);
    var v, id := Param("v", "1"), Param("id", h.id);
    var url, text := Param("url", h.sourceUrl), Param("text", h.selectedText);
    assert Map(pair, [v, id, url, text]) == [pair(v), pair(id), pair(url), pair(text)];
  }

  lemma GoodFieldsPass(h: Handoff)
    requires IsHandoffId(h.id) && IsSourceUrl(h.sourceUrl)
    requires Trimmed(h.selectedText) && 1 <= |h.selectedText| <= MAX_TEXT
    ensures CheckFields(Fields(Some(VERSION), Some(h.id), Some(h.sourceUrl), Some(h.selectedText))) == Ok(h)
  {
    TrimOfTrimmed(h.selectedText);
  }

  lemma HandoffLinkReads(h: Handoff, keep: byte -> bool, upper: bool)
    requires IsHandoffId(h.id) && IsSourceUrl(h.sourceUrl)
    requires Trimmed(h.selectedText) && 1 <= |h.selectedText| <= MAX_TEXT
    ensures Parse(LinkText(HandoffParams(h), keep, upper)) == Ok(h)
  {
    HandoffFields(h);
    LinkReadsParams(HandoffParams(h), keep, upper);
    GoodFieldsPass(h);
  }

  /** What is put into a version 1 link comes out of it. */
  lemma LinkRoundTrip(h: Handoff, keep: byte -> bool, upper: bool)
    requires GoodId(h.id) && GoodUrl(h.sourceUrl)
    requires Trimmed(h.selectedText) && 1 <= |h.selectedText| <= 2000
    ensures Parse(LinkText(HandoffParams(h), keep, upper)) == Ok(h)
  {
    IdExactly(h.id);
    UrlExactly(h.sourceUrl);
    HandoffLinkReads(h, keep, upper);
  }
}
