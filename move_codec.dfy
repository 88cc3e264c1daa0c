/** The move message of the FIFO protocol. Clients print it with
    `snprintf(buf, .., "%d %d", id, cnt)` and write `strlen(buf) + 1` bytes,
    so the terminating NUL travels with it; servers read it back with
    `sscanf(buf, "%d %d", &pid, &cnt)`. */
module MoveCodec {
  import opened Decimal

  datatype Option<T> = None | Some(value: T)

  /** The characters `isspace` accepts: space, and tab through carriage return. */
  predicate IsSpace(c: char) { c == ' ' || 9 <= c as int <= 13 }

  /** Length of the leading run of white space. */
  function SpaceRun(s: string): (k: nat)
    ensures k <= |s|
    ensures forall i :: 0 <= i < k ==> IsSpace(s[i])
    ensures k < |s| ==> !IsSpace(s[k])
    decreases |s|
  {
    if s != [] && IsSpace(s[0]) then 1 + SpaceRun(s[1..]) else 0
  }

  /** Length of the leading run of decimal digits. */
  function DigitRun(s: string): (k: nat)
    ensures k <= |s|
    ensures AllDigits(s[..k])
    ensures k < |s| ==> !IsDigit(s[k])
    decreases |s|
  {
    if s != [] && IsDigit(s[0]) then
      var k := 1 + DigitRun(s[1..]);
      assert s[..k] == [s[0]] + s[1..][..k - 1];
      k
    else 0
  }

  /** A converted value and the number of characters the conversion consumed. */
  datatype Scan = Scan(value: int, used: nat)

  /** One `%d` conversion: skip white space, then read a signed number. */
  function ScanInt(s: string): (r: Option<Scan>)
    ensures r.Some? ==> 0 < r.value.used <= |s|
  {
    var w := SpaceRun(s);
    match ScanSigned(s[w..])
    case None => None
    case Some(n) => Some(Scan(n.value, w + n.used))
  }

  /** One optional sign, then at least one digit; without a digit the
      conversion fails (None). */
  function ScanSigned(t: string): (r: Option<Scan>)
    ensures r.Some? ==> 0 < r.value.used <= |t|
  {
    var sign := if |t| > 0 && (t[0] == '-' || t[0] == '+') then 1 else 0;
    var d := DigitRun(t[sign..]);
    if d == 0 then None
    else
      assert t[sign..][..d] == t[sign..sign + d];
      var mag: int := DigitsValue(t[sign..sign + d]);
      Some(Scan(if sign == 1 && t[0] == '-' then -mag else mag, sign + d))
  }

  /** What `sscanf(buf, "%d %d", ..)` assigns: the first field, and the
      second only if the first succeeded. The space directive of the format
      skips white space, which the second `%d` would skip anyway. */
  datatype Fields = Fields(first: Option<int>, second: Option<int>)

  function Decode(buf: string): (f: Fields)
    ensures f.second.Some? ==> f.first.Some?
    ensures ScanInt(buf).None? <==> f.first.None?
  {
    match ScanInt(buf)
    case None => Fields(None, None)
    case Some(a) =>
      Fields(Some(a.value), match ScanInt(buf[a.used..]) case None => None case Some(b) => Some(b.value))
  }

  /** The out-argument after `sscanf`: overwritten when converted, kept otherwise. */
  function Assign(prior: int, field: Option<int>): (v: int)
    ensures field.None? ==> v == prior
  {
    match field
    case None => prior
    case Some(x) => x
  }

  /** The text `"%d %d"` prints. */
  function Format(pid: int, cnt: int): (s: string)
    ensures |s| == |IntToString(pid)| + 1 + |IntToString(cnt)|
    ensures s[|IntToString(pid)|] == ' '
    ensures forall k :: 0 <= k < |s| ==> s[k] != '\0'
  {
    IntToString(pid) + " " + IntToString(cnt)
  }

  /** The bytes a client writes: the text and its terminating NUL, that
      is `strlen(buf) + 1` bytes, since the text holds no NUL of its own. */
  function Message(pid: int, cnt: int): (m: string)
    ensures |m| == |Format(pid, cnt)| + 1
    ensures m[..|m| - 1] == Format(pid, cnt) && m[|m| - 1] == '\0'
    ensures forall k :: 0 <= k < |m| - 1 ==> m[k] != '\0'
  {
    Format(pid, cnt) + "\0"
  }

  lemma {:induction false} SpaceRunPrefix(pad: string, t: string)
    requires forall i :: 0 <= i < |pad| ==> IsSpace(pad[i])
    requires t == [] || !IsSpace(t[0])
    ensures SpaceRun(pad + t) == |pad|
    decreases |pad|
  {
    if pad != [] {
      assert (pad + t)[1..] == pad[1..] + t;
      SpaceRunPrefix(pad[1..], t);
    }
  }

  lemma {:induction false} DigitRunPrefix(ds: string, t: string)
    requires AllDigits(ds)
    requires t == [] || !IsDigit(t[0])
    ensures DigitRun(ds + t) == |ds|
    decreases |ds|
  {
    if ds != [] {
      assert (ds + t)[1..] == ds[1..] + t;
      DigitRunPrefix(ds[1..], t);
    }
  }

  /** White space before a number changes only how much `%d` consumes. */
  lemma ScanIntAfterSpaces(s: string, pad: string, t: string, value: int, used: nat)
    requires forall k :: 0 <= k < |pad| ==> IsSpace(pad[k])
    requires t == [] || !IsSpace(t[0])
    requires ScanSigned(t) == Some(Scan(value, used))
    requires s == pad + t
    ensures ScanInt(s) == Some(Scan(value, |pad| + used))
  {
    SpaceRunPrefix(pad, t);
    assert s[|pad|..] == t;
  }

  lemma ScanSignedDigits(ds: string, rest: string)
    requires 1 <= |ds| && AllDigits(ds)
    requires rest == [] || !IsDigit(rest[0])
    ensures ScanSigned(ds + rest) == Some(Scan(DigitsValue(ds), |ds|))
  {
    var t := ds + rest;
    assert t[0] == ds[0] && IsDigit(t[0]);
    assert t[0..] == ds + rest;
    DigitRunPrefix(ds, rest);
    assert t[0..|ds|] == ds;
  }

  lemma ScanSignedNegative(ds: string, rest: string)
    requires 1 <= |ds| && AllDigits(ds)
    requires rest == [] || !IsDigit(rest[0])
    ensures ScanSigned("-" + ds + rest) == Some(Scan(-(DigitsValue(ds) as int), 1 + |ds|))
  {
    DropSign(ds, rest);
    DigitRunPrefix(ds, rest);
    ScanSignedMinus("-" + ds + rest, ds);
  }

  lemma DropSign(ds: string, rest: string)
    ensures ("-" + ds + rest)[0] == '-'
    ensures ("-" + ds + rest)[1..] == ds + rest
    ensures ("-" + ds + rest)[1..1 + |ds|] == ds
  {
  }

  /** A minus sign followed by the digits `ds` and then no further digit. */
  lemma ScanSignedMinus(t: string, ds: string)
    requires 1 <= |ds| && AllDigits(ds) && 1 + |ds| <= |t|
    requires t[0] == '-' && t[1..1 + |ds|] == ds && DigitRun(t[1..]) == |ds|
    ensures ScanSigned(t) == Some(Scan(-(DigitsValue(ds) as int), 1 + |ds|))
  {
    assert t[1..][..|ds|] == ds;
  }

  /** The signed-number part of `%d` reads back what `to_string` wrote,
      when a non-digit (or the end) follows. */
  lemma ScanSignedToString(i: int, rest: string)
    requires rest == [] || !IsDigit(rest[0])
    ensures ScanSigned(IntToString(i) + rest) == Some(Scan(i, |IntToString(i)|))
  {
    if i < 0 {
      ScanSignedNegative(NatToString(-i), rest);
      NatToStringRoundTrip(-i);
    } else {
      ScanSignedDigits(NatToString(i), rest);
      NatToStringRoundTrip(i);
    }
  }

  /** A `%d` conversion reads back exactly what `to_string` wrote, after any
      leading white space, when a non-digit (or the end) follows. */
  lemma ScanIntToString(s: string, pad: string, i: int, rest: string, used: nat)
    requires forall k :: 0 <= k < |pad| ==> IsSpace(pad[k])
    requires rest == [] || !IsDigit(rest[0])
    requires s == pad + IntToString(i) + rest
    requires used == |pad| + |IntToString(i)|
    ensures ScanInt(s) == Some(Scan(i, used))
  {
    Regroup(s, pad, IntToString(i), rest);
    ScanSignedToString(i, rest);
    ScanIntAfterSpaces(s, pad, IntToString(i) + rest, i, |IntToString(i)|);
  }

  lemma Regroup(s: string, a: string, b: string, c: string)
    requires s == a + b + c
    ensures s == a + (b + c)
  {
  }

  /** The message text around the player id: nothing before it, and a
      space, the count and the rest after it. */
  lemma FormatParts(pid: int, cnt: int, rest: string)
    ensures Format(pid, cnt) + rest == [] + IntToString(pid) + (" " + IntToString(cnt) + rest)
    ensures (Format(pid, cnt) + rest)[|IntToString(pid)|..] == " " + IntToString(cnt) + rest
  {
  }

  /** The first `%d` of a formatted message reads the player id. */
  lemma FirstField(pid: int, cnt: int, rest: string)
    requires rest == [] || !IsDigit(rest[0])
    ensures ScanInt(Format(pid, cnt) + rest) == Some(Scan(pid, |IntToString(pid)|))
  {
    FormatParts(pid, cnt, rest);
    ScanIntToString(Format(pid, cnt) + rest, [], pid, " " + IntToString(cnt) + rest, |IntToString(pid)|);
  }

  /** After the player id, the second `%d` reads the count: one space, then
      the digits. */
  lemma SecondField(cnt: int, rest: string)
    requires rest == [] || !IsDigit(rest[0])
    ensures ScanInt(" " + IntToString(cnt) + rest) == Some(Scan(cnt, 1 + |IntToString(cnt)|))
  {
    ScanIntToString(" " + IntToString(cnt) + rest, " ", cnt, rest, 1 + |IntToString(cnt)|);
  }

  /** Decoding what a client formats gives back both numbers, whatever
      non-digit byte (such as the NUL) follows the text. */
  lemma FormatRoundTrip(pid: int, cnt: int, rest: string)
    requires rest == [] || !IsDigit(rest[0])
    ensures Decode(Format(pid, cnt) + rest) == Fields(Some(pid), Some(cnt))
  {
    FormatParts(pid, cnt, rest);
    FirstField(pid, cnt, rest);
    SecondField(cnt, rest);
    DecodeBoth(Format(pid, cnt) + rest, " " + IntToString(cnt) + rest,
      Scan(pid, |IntToString(pid)|), Scan(cnt, 1 + |IntToString(cnt)|));
  }

  /** `sscanf` assigns both fields when both conversions succeed. */
  lemma DecodeBoth(buf: string, second: string, a: Scan, b: Scan)
    requires ScanInt(buf) == Some(a) && a.used <= |buf| && buf[a.used..] == second
    requires ScanInt(second) == Some(b)
    ensures Decode(buf) == Fields(Some(a.value), Some(b.value))
  {
  }

  lemma MessageRoundTrip(pid: int, cnt: int)
    ensures Decode(Message(pid, cnt)) == Fields(Some(pid), Some(cnt))
  {
    FormatRoundTrip(pid, cnt, "\0");
  }
}
