/** The install banner's dismissal window (pwa-loader.js:93-98): the banner
    stays hidden for seven days after the user closed it, as recorded by the
    close handler (pwa-loader.js:171), which stores `Date.now()` as text. */
module InstallBanner {
  import opened Wrappers
  import opened JsValues

  const DISMISSED_KEY: string := "pwa_dismissed_time"
  const DISMISS_WINDOW_DAYS: int := 7
  const DISMISS_WINDOW_MS: int := DISMISS_WINDOW_DAYS * MS_PER_DAY

  /** The characters `parseInt` skips before the number: white space and
      line terminators. */
  predicate IsSpace(c: char) {
    var u := c as int;
    u in {0x09, 0x0A, 0x0B, 0x0C, 0x0D, 0x20, 0xA0, 0x1680,
          0x2028, 0x2029, 0x202F, 0x205F, 0x3000, 0xFEFF}
    || 0x2000 <= u <= 0x200A
  }

  function DigitValue(c: char): int {
    if '0' <= c <= '9' then c as int - '0' as int
    else if 'a' <= c <= 'z' then c as int - 'a' as int + 10
    else if 'A' <= c <= 'Z' then c as int - 'A' as int + 10
    else 36
  }

  predicate IsDigit(c: char, radix: int) {
    DigitValue(c) < radix
  }

  function TrimStart(s: string): (t: string)
    ensures |t| <= |s| && t == s[|s| - |t|..]
    ensures |t| > 0 ==> !IsSpace(t[0])
  {
    if |s| > 0 && IsSpace(s[0]) then TrimStart(s[1..]) else s
  }

  /** The longest prefix of `s` made of digits in `radix`. */
  function DigitPrefix(s: string, radix: int): (d: string)
    ensures |d| <= |s| && d == s[..|d|]
    ensures forall i :: 0 <= i < |d| ==> IsDigit(d[i], radix)
    ensures |d| < |s| ==> !IsDigit(s[|d|], radix)
  {
    if |s| > 0 && IsDigit(s[0], radix) then [s[0]] + DigitPrefix(s[1..], radix) else []
  }

  /** The value of a digit string, most significant digit first. */
  function DigitsValue(d: string, radix: int): int
    decreases |d|
  {
    if |d| == 0 then 0 else DigitsValue(d[..|d| - 1], radix) * radix + DigitValue(d[|d| - 1])
  }

  /** `parseInt(s)` with no radix; `None` is NaN. Leading white space is
      skipped, one sign is read, a `0x`/`0X` prefix selects hexadecimal, and
      the longest run of digits that follows is the value. */
  function ParseInt(s: string): (r: Option<int>)
    ensures r.Some? ==> exists i :: 0 <= i < |s| && '0' <= s[i] <= '9'
    ensures (forall i :: 0 <= i < |s| ==> IsSpace(s[i])) ==> r.None?
  {
    var t := TrimStart(s);
    var negative := |t| > 0 && t[0] == '-';
    var u := if |t| > 0 && (t[0] == '-' || t[0] == '+') then t[1..] else t;
    var hex := |u| >= 2 && u[0] == '0' && (u[1] == 'x' || u[1] == 'X');
    var radix := if hex then 16 else 10;
    var d := DigitPrefix(if hex then u[2..] else u, radix);
    if |d| == 0 then None
    else
      assert if hex then s[|s| - |t| + (|t| - |u|)] == '0' else d[0] == s[|s| - |t| + (|t| - |u|)];
      Some(if negative then -DigitsValue(d, radix) else DigitsValue(d, radix))
  }

  function DigitChar(n: int): char
    requires 0 <= n < 10
  {
    ('0' as int + n) as char
  }

  /** `String(n)` for a non-negative integer: its decimal digits. */
  function Decimal(n: nat): (s: string)
    ensures |s| > 0
    ensures forall i :: 0 <= i < |s| ==> '0' <= s[i] <= '9'
  {
    if n < 10 then [DigitChar(n)] else Decimal(n / 10) + [DigitChar(n % 10)]
  }

  /** The close handler's write: the dismissal time as decimal text. */
  function Dismiss(storage: Storage, now: nat): (s: Storage)
    ensures s.Keys == storage.Keys + {DISMISSED_KEY}
    ensures ParseInt(s[DISMISSED_KEY]) == Some(now)
    ensures forall k :: k in storage && k != DISMISSED_KEY ==> s[k] == storage[k]
  {
    var written := storage[DISMISSED_KEY := Decimal(now)];
    assert written.Keys == storage.Keys + {DISMISSED_KEY};
    assert written[DISMISSED_KEY] == Decimal(now);
    ParseIntDecimal(now);
    written
  }

  /** Lines 94-97: the banner is suppressed when a non-empty dismissal time is
      stored, it parses, and fewer than seven days have passed since it. */
  function Suppressed(storage: Storage, now: int): (r: bool)
    ensures r ==> DISMISSED_KEY in storage && storage[DISMISSED_KEY] != ""
    ensures r ==> ParseInt(storage[DISMISSED_KEY]).Some?
  {
    if DISMISSED_KEY !in storage || storage[DISMISSED_KEY] == "" then false
    else
      match ParseInt(storage[DISMISSED_KEY])
      case None => false
      case Some(t) => now - t < DISMISS_WINDOW_MS
  }

  /** Decimal digits read back as the number they were written from. */
  lemma {:induction false} DecimalValue(n: nat)
    ensures DigitsValue(Decimal(n), 10) == n
  {
    var s := Decimal(n);
    if n >= 10 {
      DecimalValue(n / 10);
      assert s[..|s| - 1] == Decimal(n / 10);
    }
  }

  /** A digit string is its own longest digit prefix. */
  lemma AllDigitsPrefix(s: string)
    requires forall i :: 0 <= i < |s| ==> '0' <= s[i] <= '9'
    ensures DigitPrefix(s, 10) == s
  {
  }

  lemma DigitNotSpace(c: char)
    requires '0' <= c <= '9'
    ensures !IsSpace(c)
  {
    var u := c as int;
    assert 0x30 <= u <= 0x39;
    assert u !in {0x09, 0x0A, 0x0B, 0x0C, 0x0D, 0x20, 0xA0, 0x1680,
                  0x2028, 0x2029, 0x202F, 0x205F, 0x3000, 0xFEFF};
  }

  /** A string of decimal digits starts with no white space, no sign and
      no hex prefix. */
  lemma DigitsStartPlain(s: string)
    requires |s| > 0 && forall i :: 0 <= i < |s| ==> '0' <= s[i] <= '9'
    ensures TrimStart(s) == s
    ensures s[0] != '-' && s[0] != '+'
    ensures !(|s| >= 2 && s[0] == '0' && (s[1] == 'x' || s[1] == 'X'))
  {
    DigitNotSpace(s[0]);
    if |s| >= 2 { assert '0' <= s[1] <= '9'; }
  }

  /** A non-empty string of decimal digits reads as its decimal value: no
      white space is skipped, no sign is read and no hex prefix applies. */
  lemma ParseIntDigits(s: string)
    requires |s| > 0 && forall i :: 0 <= i < |s| ==> '0' <= s[i] <= '9'
    ensures ParseInt(s) == Some(DigitsValue(s, 10))
  {
    DigitsStartPlain(s);
    AllDigitsPrefix(s);
  }

  /** `parseInt(String(n)) == n`: the close handler's text reads back exactly. */
  lemma {:induction false} ParseIntDecimal(n: nat)
    ensures ParseInt(Decimal(n)) == Some(n)
  {
    ParseIntDigits(Decimal(n));
    DecimalValue(n);
  }

  /** Dismissing at time `t` hides the banner at `now` exactly when fewer
      than seven days have passed since `t` (a clock earlier than `t` also
      hides it); from seven days on it shows again. */
  lemma {:induction false} DismissalWindow(storage: Storage, t: nat, now: int)
    ensures Suppressed(Dismiss(storage, t), now) <==> now - t < DISMISS_WINDOW_MS
    ensures now >= t + DISMISS_WINDOW_MS ==> !Suppressed(Dismiss(storage, t), now)
  {
    ParseIntDecimal(t);
  }

  /** No stored dismissal time, or text with no number in it, never hides the banner. */
  lemma NoDismissalShowsBanner(storage: Storage, now: int)
    requires DISMISSED_KEY !in storage || ParseInt(storage[DISMISSED_KEY]).None?
    ensures !Suppressed(storage, now)
  {
  }
}
