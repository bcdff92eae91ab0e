/** Resource versions: the watermark, alone ("12345678") or behind an object version ("o5;12345678"). */
module ResourceVersion {
  import opened Wrappers

  datatype RV = RV(objectVersion: int, watermark: nat)

  /** The Go field types. */
  predicate InRange(rv: RV) {
    -INT64_LIMIT <= rv.objectVersion < INT64_LIMIT && rv.watermark < UINT64_LIMIT
  }

  datatype RVError = NoSeparator | BadObjectVersion | EmptyWatermark | OldBucketFormat | BadWatermark

  /******* strconv *******/

  predicate IsDigit(c: char) {
    '0' <= c <= '9'
  }

  function DigitValue(c: char): nat
    requires IsDigit(c)
  {
    c as int - '0' as int
  }

  function DigitChar(d: nat): char
    requires d < 10
  {
    ('0' as int + d) as char
  }

  function FormatUint(n: nat): string {
    if n < 10 then [DigitChar(n)] else FormatUint(n / 10) + [DigitChar(n % 10)]
  }

  function Value(s: string): nat
    requires forall c | c in s :: IsDigit(c)
  {
    if s == "" then 0 else Value(s[..|s| - 1]) * 10 + DigitValue(s[|s| - 1])
  }

  /** strconv.ParseUint(s, 10, 64). */
  function ParseUint(s: string): Option<nat> {
    if s == "" || exists c | c in s :: !IsDigit(c) then None
    else if Value(s) < UINT64_LIMIT then Some(Value(s))
    else None
  }

  /** strconv.ParseInt(s, 10, 64). */
  function ParseInt(s: string): Option<int> {
    if s == "" then None
    else
      var negative := s[0] == '-';
      match ParseUint(if negative || s[0] == '+' then s[1..] else s)
      case None => None
      case Some(n) =>
        var v := if negative then -(n as int) else n as int;
        if -INT64_LIMIT <= v < INT64_LIMIT then Some(v) else None
  }

  predicate AllDigits(s: string) {
    s != "" && forall c | c in s :: IsDigit(c)
  }

  lemma {:induction false} FormatIsDigits(n: nat)
    ensures AllDigits(FormatUint(n))
  {
    if n >= 10 { FormatIsDigits(n / 10); }
  }

  lemma {:induction false} FormatThenValue(n: nat)
    ensures AllDigits(FormatUint(n)) && Value(FormatUint(n)) == n
  {
    FormatIsDigits(n);
    if n >= 10 {
      FormatThenValue(n / 10);
      var s := FormatUint(n);
      assert s[..|s| - 1] == FormatUint(n / 10);
    }
  }

  lemma ParseFormatted(n: nat)
    ensures AllDigits(FormatUint(n))
    ensures ParseUint(FormatUint(n)) == if n < UINT64_LIMIT then Some(n) else None
    ensures ParseInt(FormatUint(n)) == if n < INT64_LIMIT then Some(n) else None
  {
    FormatThenValue(n);
    assert IsDigit(FormatUint(n)[0]);
  }

  /** strconv.FormatInt(n, 10). */
  function FormatInt(n: int): string {
    if n < 0 then "-" + FormatUint(-n) else FormatUint(n)
  }

  /** What ParseInt makes of digits: their value behind an optional sign, if an int64 can hold it. */
  lemma ParseIntExactly(digits: string)
    requires AllDigits(digits)
    ensures ParseInt(digits) == if Value(digits) < INT64_LIMIT then Some(Value(digits)) else None
    ensures ParseInt("+" + digits) == if Value(digits) < INT64_LIMIT then Some(Value(digits)) else None
    ensures ParseInt("-" + digits) == if Value(digits) <= INT64_LIMIT then Some(-(Value(digits) as int)) else None
  {
    assert digits[0] in digits;
    assert ("+" + digits)[1..] == digits && ("-" + digits)[1..] == digits;
  }

  /** ... and of anything else, nothing. */
  lemma ParseIntRejects(s: string)
    requires ParseInt(s).Some?
    ensures AllDigits(s) || (s != "" && s[0] in {'+', '-'} && AllDigits(s[1..]))
  {
    var rest := if s[0] == '-' || s[0] == '+' then s[1..] else s;
    assert AllDigits(rest);
  }

  /** Printing and parsing a signed integer. */
  lemma SignedRoundTrip(n: Int64)
    ensures FormatInt(n) != "" && ParseInt(FormatInt(n)) == Some(n)
  {
    var magnitude: nat := if n < 0 then -(n as int) else n;
    FormatThenValue(magnitude);
    ParseIntExactly(FormatUint(magnitude));
  }

  /******* String and Parse *******/

  function String(rv: RV): string {
    if rv.objectVersion > 0 then "o" + FormatUint(rv.objectVersion) + ";" + FormatUint(rv.watermark)
    else FormatUint(rv.watermark)
  }

  /** strings.IndexByte: the first position of c, or |s|. */
  function IndexOf(s: string, c: char): (i: nat)
    ensures i <= |s| && c !in s[..i] && (i < |s| ==> s[i] == c)
  {
    if s == "" || s[0] == c then 0 else 1 + IndexOf(s[1..], c)
  }

  function ParseWatermark(objectVersion: int, s: string): Result<RV, RVError> {
    if s != "" && s[0] == 'b' then Err(OldBucketFormat)
    else
      match ParseUint(s)
      case None => Err(BadWatermark)
      case Some(watermark) => Ok(RV(objectVersion, watermark))
  }

  function Parse(s: string): Result<RV, RVError> {
    if s == "" then Ok(RV(0, 0))
    else if s[0] != 'o' then ParseWatermark(0, s)
    else
      var semi := IndexOf(s, ';');
      if semi == |s| then Err(NoSeparator)
      else
        match ParseInt(s[1..semi])
        case None => Err(BadObjectVersion)
        case Some(objectVersion) =>
          if s[semi + 1..] == "" then Err(EmptyWatermark) else ParseWatermark(objectVersion, s[semi + 1..])
  }

  lemma FirstIndex(s: string, c: char, p: nat)
    requires p < |s| && s[p] == c && forall j | 0 <= j < p :: s[j] != c
    ensures IndexOf(s, c) == p
  {
    if p > 0 { FirstIndex(s[1..], c, p - 1); }
  }

  /** The separator of a printed version is found where it was put. */
  lemma FindSeparator(digits: string, rest: string)
    requires AllDigits(digits)
    ensures IndexOf("o" + digits + ";" + rest, ';') == 1 + |digits|
  {
    var s := "o" + digits + ";" + rest;
    forall j | 0 < j < 1 + |digits| ensures s[j] != ';' {
      assert s[j] == digits[j - 1] && digits[j - 1] in digits;
    }
    FirstIndex(s, ';', 1 + |digits|);
  }

  /** Parse inverts String on every version the two Go fields can hold, but for negative object
      versions, which String drops. */
  lemma RoundTripsExactly(rv: RV)
    requires InRange(rv)
    ensures Parse(String(rv)) == Ok(rv) <==> rv.objectVersion >= 0
    ensures Parse(String(rv)).Ok? && Parse(String(rv)).value.watermark == rv.watermark
  {
    var watermark := FormatUint(rv.watermark);
    ParseFormatted(rv.watermark);
    assert IsDigit(watermark[0]);
    if rv.objectVersion > 0 {
      var digits := FormatUint(rv.objectVersion);
      ParseFormatted(rv.objectVersion);
      FindSeparator(digits, watermark);
      assert String(rv)[1..1 + |digits|] == digits;
      assert String(rv)[2 + |digits|..] == watermark;
    }
  }

  /******* parseResourceVersion *******/

  /** The version an update names, out of the resource version its object carries. */
  function ObjectVersionOf(s: string): Result<int, ()> {
    if s == "" then Ok(0)
    else
      var bare := ParseInt(s);
      if bare.Some? then Ok(bare.value)
      else
        var composite := Parse(s);
        if composite.Err? || composite.value.objectVersion == 0 then Err(())
        else Ok(composite.value.objectVersion)
  }

  /** No version at all is version 0, which makes a Delete name the version it reads; a bare integer is
      itself; otherwise a composite form must carry an object version that is not 0. */
  lemma ObjectVersionExactly(s: string, v: int)
    ensures ObjectVersionOf("") == Ok(0)
    ensures s != "" && ParseInt(s).Some? ==> ObjectVersionOf(s) == Ok(ParseInt(s).value)
    ensures s != "" && ParseInt(s).None? ==>
              (ObjectVersionOf(s) == Ok(v) <==> v != 0 && Parse(s).Ok? && Parse(s).value.objectVersion == v)
  {
  }

  /** Parse accepts the empty string, a watermark, and an object version and a watermark, separated. */
  lemma ParseAcceptsExactly(s: string, rv: RV)
    ensures Parse(s) == Ok(rv) <==>
            || (s == "" && rv == RV(0, 0))
            || (AllDigits(s) && Value(s) < UINT64_LIMIT && rv == RV(0, Value(s)))
            || (s != "" && s[0] == 'o'
                && var semi := IndexOf(s, ';');
                   && semi < |s| && ParseInt(s[1..semi]) == Some(rv.objectVersion)
                   && AllDigits(s[semi + 1..]) && Value(s[semi + 1..]) == rv.watermark < UINT64_LIMIT)
  {
    if s != "" {
      WatermarkAccepts(0, s, rv);
      assert s[0] in s;
      var semi := IndexOf(s, ';');
      if s[0] == 'o' && semi < |s| && ParseInt(s[1..semi]).Some? {
        WatermarkAccepts(ParseInt(s[1..semi]).value, s[semi + 1..], rv);
      }
    }
  }

  lemma WatermarkAccepts(objectVersion: int, s: string, rv: RV)
    ensures ParseWatermark(objectVersion, s) == Ok(rv) <==>
            AllDigits(s) && Value(s) < UINT64_LIMIT && rv == RV(objectVersion, Value(s))
  {
    if s != "" { assert s[0] in s; }
  }

  /** Both forms an object can carry, the bare version a read sets and the composite one a watch
      event sets, name the version of the row it came from. A list's own version carries none: it is
      refused if it exceeds an int64 and is mistaken for an object version if it does not. */
  lemma EitherFormNamesTheVersion(n: int, watermark: nat)
    requires 0 < n < INT64_LIMIT && watermark < UINT64_LIMIT
    ensures ObjectVersionOf(FormatUint(n)) == Ok(n)
    ensures ObjectVersionOf(String(RV(n, watermark))) == Ok(n)
    ensures ObjectVersionOf(String(RV(0, watermark))) == if watermark < INT64_LIMIT then Ok(watermark) else Err(())
  {
    ParseFormatted(n);
    ParseFormatted(watermark);
    RoundTripsExactly(RV(n, watermark));
    RoundTripsExactly(RV(0, watermark));
    assert String(RV(n, watermark))[0] == 'o';
    assert 'o' in String(RV(n, watermark));
  }
}
