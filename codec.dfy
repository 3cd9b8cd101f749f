/**
 * The text side of the manager's control protocol: how a datagram from the
 * proxy process is classified, and how the add / remove commands are spelled.
 * JSON serialisation itself is abstract: `dumps` is passed in as a function.
 */
module Codec {

  datatype Option<+T> = None | Some(value: T)

  datatype Result<+T, +E> = Ok(value: T) | Err(error: E)

  /** A JSON value as it can appear in an instance's configuration mapping. */
  datatype Value = Null | Bool(b: bool) | Int(i: int) | Str(s: string)

  type Config = map<string, Value>

  /** The exceptions the manager's operations can raise. */
  datatype Fault =
    | KeyError(key: string)      // dict.pop of a missing key
    | SendFailed                 // send on a socket that is absent, closed or not connected
    | AddressInUse               // bind to a client path that already exists
    | ConnectionError            // SSServerConnectionError: the retry schedule ran out
    | ThreadAlreadyStarted       // Thread.start called a second time

  // ---------------------------------------------------------------------
  // Splitting on the first separator (Python's `s.split(sep, 1)`)
  // ---------------------------------------------------------------------

  /** The two halves around the first `sep`, or None when `sep` does not occur. */
  function SplitFirst(s: string, sep: char): (r: Option<(string, string)>)
    ensures r.None? <==> sep !in s
    ensures r.Some? ==> s == r.value.0 + [sep] + r.value.1 && sep !in r.value.0
    decreases |s|
  {
    if |s| == 0 then None
    else if s[0] == sep then Some(([], s[1..]))
    else match SplitFirst(s[1..], sep)
      case None => None
      case Some(parts) => Some(([s[0]] + parts.0, parts.1))
  }

  /** Whatever follows the first separator, the split happens right after a separator-free head. */
  lemma {:induction false} SplitFirstAt(head: string, sep: char, tail: string)
    requires sep !in head
    ensures SplitFirst(head + [sep] + tail, sep) == Some((head, tail))
    decreases |head|
  {
    if head != [] {
      assert (head + [sep] + tail)[1..] == head[1..] + [sep] + tail;
      SplitFirstAt(head[1..], sep, tail);
      assert [head[0]] + head[1..] == head;
    }
  }

  // ---------------------------------------------------------------------
  // Decimal integers (Python's `str(n)` and `int(s)`)
  // ---------------------------------------------------------------------

  predicate IsDigit(c: char) { '0' <= c <= '9' }

  predicate IsDigits(s: string) { |s| >= 1 && forall i :: 0 <= i < |s| ==> IsDigit(s[i]) }

  function DigitChar(d: nat): (c: char)
    requires d < 10
    ensures IsDigit(c) && c as int - '0' as int == d
  {
    ('0' as int + d) as char
  }

  /** The value of a string of ASCII digits, most significant first. */
  function DigitsValue(s: string): nat
    requires forall i :: 0 <= i < |s| ==> IsDigit(s[i])
  {
    if s == [] then 0
    else
      var d := s[|s| - 1] as int - '0' as int;
      assert IsDigit(s[|s| - 1]);
      DigitsValue(s[..|s| - 1]) * 10 + d
  }

  /** The shortest decimal spelling of a natural number. */
  function Digits(n: nat): (r: string)
    ensures IsDigits(r)
    ensures r[0] == '0' <==> n == 0
    ensures n < 10 ==> |r| == 1
    decreases n
  {
    if n < 10 then [DigitChar(n)] else Digits(n / 10) + [DigitChar(n % 10)]
  }

  /** `str(n)` for an int: a minus sign for negatives, then the digits, with no leading zero. */
  function Decimal(n: int): (r: string)
    ensures |r| >= 1 && (r[0] == '-' <==> n < 0)
    ensures n < 0 ==> IsDigits(r[1..]) && r[1] != '0'
    ensures n >= 0 ==> IsDigits(r) && (r[0] == '0' <==> n == 0)
    ensures n == 0 ==> r == "0"
  {
    if n < 0 then "-" + Digits(-n) else Digits(n)
  }

  /** `int(s)` on an optional sign followed by ASCII digits; None models the ValueError. */
  function ParseInt(s: string): (r: Option<int>)
    ensures r.Some? <==> IsDigits(s) || (|s| >= 2 && (s[0] == '-' || s[0] == '+') && IsDigits(s[1..]))
  {
    if IsDigits(s) then Some(DigitsValue(s) as int)
    else if |s| >= 2 && s[0] == '-' && IsDigits(s[1..]) then Some(0 - DigitsValue(s[1..]))
    else if |s| >= 2 && s[0] == '+' && IsDigits(s[1..]) then Some(DigitsValue(s[1..]) as int)
    else None
  }

  lemma {:induction false} DigitsValueOfDigits(n: nat)
    ensures DigitsValue(Digits(n)) == n
    decreases n
  {
    if n >= 10 {
      var d := Digits(n);
      assert d[..|d| - 1] == Digits(n / 10);
      DigitsValueOfDigits(n / 10);
    }
  }

  /** `int(str(n)) == n`: the decimal rendering can be read back. */
  lemma DecimalRoundTrip(n: int)
    ensures ParseInt(Decimal(n)) == Some(n)
  {
    if n < 0 {
      var d := Digits(-n);
      var s := "-" + d;
      assert s[1..] == d;
      assert !IsDigits(s) by { assert !IsDigit(s[0]); }
      DigitsValueOfDigits(-n);
      assert ParseInt(s) == Some(0 - DigitsValue(d));
    } else {
      DigitsValueOfDigits(n);
    }
  }

  /** A decimal rendering holds neither the frame separator nor a closing brace. */
  lemma DecimalHasNoDelimiters(n: int)
    ensures ':' !in Decimal(n) && '}' !in Decimal(n)
  {
  }

  // ---------------------------------------------------------------------
  // Outbound commands
  // ---------------------------------------------------------------------

  /** The handshake: drop the placeholder listener the proxy starts with. */
  const Handshake: string := "remove: {\"server\": \"127.0.1.2\"}"

  const RemovePortHead: string := "remove: {\"server_port\":"

  /** `remove: {"server_port":<port>}` with the port in decimal. */
  function EncodeRemovePort(port: int): (r: string)
    ensures |r| > |RemovePortHead| && r[..|RemovePortHead|] == RemovePortHead && r[|r| - 1] == '}'
  {
    RemovePortHead + Decimal(port) + "}"
  }

  /** Reads a remove-by-port command back; the inverse of EncodeRemovePort. */
  function DecodeRemovePort(s: string): Option<int>
  {
    var h := RemovePortHead;
    if |s| > |h| && s[..|h|] == h && s[|s| - 1] == '}' then ParseInt(s[|h|..|s| - 1])
    else None
  }

  lemma RemovePortRoundTrip(port: int)
    ensures DecodeRemovePort(EncodeRemovePort(port)) == Some(port)
  {
    var s := EncodeRemovePort(port);
    assert s[|RemovePortHead|..|s| - 1] == Decimal(port);
    DecimalRoundTrip(port);
  }

  /** Distinct ports give distinct remove commands. */
  lemma RemovePortInjective(p: int, q: int)
    requires EncodeRemovePort(p) == EncodeRemovePort(q)
    ensures p == q
  {
    RemovePortRoundTrip(p);
    RemovePortRoundTrip(q);
  }

  /** On the wire the verb of a remove-by-port command is `remove`. */
  lemma RemovePortVerb(port: int)
    ensures SplitFirst(EncodeRemovePort(port), ':') == Some(("remove", " {\"server_port\":" + Decimal(port) + "}"))
  {
    RemoveHeadSplit(Decimal(port));
  }

  lemma RemoveHeadSplit(digits: string)
    ensures SplitFirst(RemovePortHead + digits + "}", ':') == Some(("remove", " {\"server_port\":" + digits + "}"))
  {
    var tail := " {\"server_port\":" + digits + "}";
    assert RemovePortHead + digits + "}" == "remove" + [':'] + tail;
    SplitFirstAt("remove", ':', tail);
  }

  /**
   * The configuration that is sent for an add: a copy of the instance's
   * mapping in which the value of `auth` moves to `one_time_auth`.
   * None models the KeyError of popping an absent `auth`.
   */
  function RenameAuth(config: Config): (r: Option<Config>)
    ensures r.None? <==> "auth" !in config
    ensures r.Some? ==> "auth" !in r.value
    ensures r.Some? ==> "one_time_auth" in r.value && r.value["one_time_auth"] == config["auth"]
    ensures r.Some? ==> r.value.Keys == config.Keys - {"auth"} + {"one_time_auth"}
    ensures r.Some? ==> forall k :: k in config && k != "auth" && k != "one_time_auth" ==> k in r.value && r.value[k] == config[k]
  {
    if "auth" in config then Some((config - {"auth"})["one_time_auth" := config["auth"]]) else None
  }

  /** `add: ` followed by the JSON of the renamed configuration. */
  function EncodeAdd(config: Config, dumps: Config -> string): (r: Result<string, Fault>)
    ensures r.Err? <==> "auth" !in config
    ensures r.Err? ==> r.error == KeyError("auth")
  {
    match RenameAuth(config)
    case None => Err(KeyError("auth"))
    case Some(sent) => Ok("add: " + dumps(sent))
  }

  /** On the wire the verb of an add command is `add`, and the rest is the renamed configuration. */
  lemma AddVerb(config: Config, dumps: Config -> string)
    requires "auth" in config
    ensures EncodeAdd(config, dumps).Ok?
    ensures SplitFirst(EncodeAdd(config, dumps).value, ':') == Some(("add", " " + dumps(RenameAuth(config).value)))
  {
    var tail := " " + dumps(RenameAuth(config).value);
    assert EncodeAdd(config, dumps).value == "add" + [':'] + tail;
    SplitFirstAt("add", ':', tail);
  }

  // ---------------------------------------------------------------------
  // Inbound frames
  // ---------------------------------------------------------------------

  /** What the receiver makes of one datagram before any JSON is parsed. */
  datatype Frame =
    | Ack                          // exactly `ok`
    | Stat(body: string)           // `stat:<json>`
    | UnknownVerb(verb: string)    // `<verb>:<anything>` with another verb
    | Unsplittable                 // no `:` at all: unpacking the split raises

  function Classify(data: string): (f: Frame)
    ensures f.Ack? <==> data == "ok"
    ensures f.Unsplittable? <==> data != "ok" && ':' !in data
    ensures f.Stat? ==> data == "stat" + [':'] + f.body
    ensures f.UnknownVerb? ==> f.verb != "stat" && ':' !in f.verb && data != "ok"
    ensures f.UnknownVerb? ==> exists rest :: data == f.verb + [':'] + rest
  {
    if data == "ok" then Ack
    else match SplitFirst(data, ':')
      case None => Unsplittable
      case Some(parts) => if parts.0 == "stat" then Stat(parts.1) else UnknownVerb(parts.0)
  }

  /** Only the first `:` splits: a stat body may itself contain colons. */
  lemma ClassifyStat(body: string)
    ensures Classify("stat" + [':'] + body) == Stat(body)
  {
    SplitFirstAt("stat", ':', body);
  }

  /** Any verb other than `stat` is reported as unknown, whatever follows it. */
  lemma ClassifyUnknown(verb: string, rest: string)
    requires ':' !in verb && verb != "stat"
    ensures Classify(verb + [':'] + rest) == UnknownVerb(verb)
  {
    SplitFirstAt(verb, ':', rest);
    assert verb + [':'] + rest != "ok" by {
      assert ':' in verb + [':'] + rest;
    }
  }
}
