/** How a rule reaches its remote classification model: the endpoint and key
    come from the environment and are cleaned, the text is sent, and the
    decoded answer comes back. Transport, headers and JSON decoding are not
    modelled; a service is a function from request to decoded reply. */
module Services {
  import opened Outcome
  import opened PyStr
  import opened CommonFunctions

  /** The process environment, `os.getenv`. */
  type Env = map<string, string>

  /** The JSON document sent: `{"data": text}` or `{"data": [text]}`. */
  datatype Payload = Data(text: string) | DataList(texts: seq<string>)

  datatype Request = Request(url: string, key: string, payload: Payload)

  /** A decoded reply, or a failed request (an HTTP error, a dropped
      connection or a reply that does not decode). */
  datatype Reply<T> = Answer(body: T) | Failed

  /** A decoded JSON value, as far as the rules look into it. */
  datatype Json = JInt(n: int) | JBool(b: bool) | JStr(s: string) | JNull | JCompound

  /** Reading a rule's endpoint: `correct_url_format(os.getenv(urlVar))`, then
      `clean_api_key(os.getenv(keyVar))`, then, for the rules that check it, the
      refusal of an empty key. An unset variable is `None`, and cleaning `None`
      fails with an `AttributeError`. */
  function Endpoint(env: Env, urlVar: string, keyVar: string, checkKey: bool, payload: Payload): (r: Result<Request>)
    ensures r.Ok? <==> urlVar in env && keyVar in env && (checkKey ==> CleanedKey(env[keyVar]) != [])
    ensures !(urlVar in env && keyVar in env) ==> r == Err(AttributeError)
    ensures r.Err? ==> r.error in {AttributeError, MissingApiKey}
    ensures r.Ok? ==> r.value.payload == payload && r.value.key == CleanedKey(env[keyVar])
    ensures r.Ok? ==> r.value.url == CorrectedUrl(env[urlVar]) && HasScheme(r.value.url)
  {
    if urlVar !in env || keyVar !in env then Err(AttributeError)
    else
      var key := CleanedKey(env[keyVar]);
      if checkKey && key == [] then Err(MissingApiKey)
      else
        CorrectedUrlHasScheme(env[urlVar]);
        Ok(Request(CorrectedUrl(env[urlVar]), key, payload))
  }

  /** Sending a request: a failed request re-raises. */
  function Call<T>(service: Request -> Reply<T>, req: Request): (r: Result<T>)
    ensures r.Ok? <==> service(req).Answer?
    ensures r.Ok? ==> r.value == service(req).body
    ensures r.Err? ==> r.error == ServiceError
  {
    match service(req)
    case Answer(body) => Ok(body)
    case Failed => Err(ServiceError)
  }

  // ------------------------------------------------------------------- int(...)

  function DigitValue(c: char): nat
    requires IsAsciiDigit(c)
  {
    c as int - '0' as int
  }

  predicate AllDigits(s: string) {
    forall i :: 0 <= i < |s| ==> IsAsciiDigit(s[i])
  }

  /** The value of a run of decimal digits. */
  function DigitsValue(s: string): nat
    requires AllDigits(s)
  {
    if s == [] then 0 else 10 * DigitsValue(s[..|s| - 1]) + DigitValue(s[|s| - 1])
  }

  /** `int(s)` for a string: surrounding whitespace, an optional sign, and at
      least one decimal digit. */
  function ParseInt(s: string): (r: Result<int>)
    ensures r.Err? ==> r.error.ValueError?
  {
    ParseSigned(Strip(s))
  }

  /** `int` of a stripped string: an optional sign and at least one digit. */
  function ParseSigned(t: string): (r: Result<int>)
    ensures r.Err? ==> r.error.ValueError?
  {
    var negative := t != [] && t[0] == '-';
    var digits := if t != [] && (t[0] == '-' || t[0] == '+') then t[1..] else t;
    if digits != [] && AllDigits(digits) then
      var magnitude: int := DigitsValue(digits);
      Ok(if negative then -magnitude else magnitude)
    else Err(ValueError("invalid literal for int()"))
  }


  /** The digit character for a value below ten. */
  function DigitChar(d: nat): (c: char)
    requires d < 10
    ensures IsAsciiDigit(c) && DigitValue(c) == d
  {
    ('0' as int + d) as char
  }

  /** `str(n)` for a natural number: its decimal digits, most significant first. */
  function Decimal(n: nat): (s: string)
    ensures s != [] && AllDigits(s)
    decreases n
  {
    if n < 10 then [DigitChar(n)] else Decimal(n / 10) + [DigitChar(n % 10)]
  }

  /** `str(n)` for an integer: a minus sign before the digits of a negative one. */
  function IntText(n: int): string {
    if n < 0 then "-" + Decimal(-n) else Decimal(n)
  }

  /** The digits of a natural number read back as that number. */
  lemma {:induction false} DecimalValue(n: nat)
    ensures DigitsValue(Decimal(n)) == n
    decreases n
  {
    var s := Decimal(n);
    if n < 10 {
      assert s[..0] == [];
    } else {
      DecimalValue(n / 10);
      assert s[..|s| - 1] == Decimal(n / 10);
    }
  }

  /** A run of digits parses to its value. */
  lemma ParseIntDigits(s: string)
    requires s != [] && AllDigits(s)
    ensures ParseInt(s) == Ok(DigitsValue(s))
  {
    StripUnpadded(s);
    assert ParseInt(s) == ParseSigned(s);
  }

  /** A minus sign before a run of digits parses to the negated value. */
  lemma ParseIntNegative(s: string)
    requires s != [] && AllDigits(s)
    ensures ParseInt("-" + s) == Ok(-(DigitsValue(s) as int))
  {
    var t := "-" + s;
    assert t[0] == '-' && !IsSpace(t[0]);
    assert t[|t| - 1] == s[|s| - 1] && !IsSpace(t[|t| - 1]);
    StripUnpadded(t);
    assert ParseInt(t) == ParseSigned(t);
    assert t[1..] == s;
  }

  /** `int(str(n)) == n`: parsing reads back the decimal text of every
      integer, sign included. */
  lemma ParseIntRoundTrip(n: int)
    ensures ParseInt(IntText(n)) == Ok(n)
  {
    var m: nat := if n < 0 then -n else n;
    var digits := Decimal(m);
    DecimalValue(m);
    var v := DigitsValue(digits);
    assert v == m;
    if n < 0 {
      ParseIntNegative(digits);
      assert ParseInt("-" + digits) == Ok(-(v as int));
      assert IntText(n) == "-" + digits;
    } else {
      ParseIntDigits(digits);
      assert ParseInt(digits) == Ok(v);
      assert IntText(n) == digits;
    }
  }



  /** A string holding one digit parses to that digit's value, and one holding
      a single non-digit is refused. */
  lemma ParseIntOneChar(c: char)
    ensures IsAsciiDigit(c) ==> ParseInt([c]) == Ok(DigitValue(c))
    ensures !IsAsciiDigit(c) ==> ParseInt([c]).Err?
  {
    assert [c][..0] == [];
    if IsSpace(c) {
      assert Strip([c]) == [];
    } else {
      assert Strip([c]) == [c];
      if IsAsciiDigit(c) {
        assert DigitsValue([c]) == 10 * DigitsValue([]) + DigitValue(c);
      }
    }
  }

  /** `int(value)` for a decoded JSON value: numbers are kept, booleans are 0
      or 1, strings are parsed, anything else is a `TypeError`. */
  function PyInt(j: Json): (r: Result<int>)
    ensures j.JInt? ==> r == Ok(j.n)
    ensures j.JBool? ==> r == Ok(if j.b then 1 else 0)
    ensures j.JStr? ==> r == ParseInt(j.s)
    ensures j.JNull? || j.JCompound? ==> r == Err(TypeError)
  {
    match j
    case JInt(n) => Ok(n)
    case JBool(b) => Ok(if b then 1 else 0)
    case JStr(s) => ParseInt(s)
    case _ => Err(TypeError)
  }
}
