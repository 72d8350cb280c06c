/** Result types and text helpers shared by the models. */
module Common {
  datatype Option<+T> = None | Some(value: T)

  datatype Result<+T, +E> = Ok(value: T) | Err(error: E)

  /** Times are microseconds since the epoch, in UTC, the resolution of a Python datetime. */
  type Time = int
  const HOUR: int := 3_600_000_000
  const DAY: int := 24 * HOUR

  /** Facts about taking the last element off a sequence. */
  lemma SplitLast<T>(s: seq<T>)
    requires s != []
    ensures s == s[..|s| - 1] + [s[|s| - 1]]
  {
  }

  lemma InitOfSnoc<T>(s: seq<T>, x: T)
    ensures (s + [x])[..|s|] == s && (s + [x])[|s|] == x && |s + [x]| == |s| + 1
  {
  }

  lemma AppendLast<T>(x: seq<T>, y: seq<T>)
    requires y != []
    ensures x + y == (x + y[..|y| - 1]) + [y[|y| - 1]]
  {
  }

  lemma SliceOfPrefix<T>(s: seq<T>, p: nat, k: nat, m: nat)
    requires k <= m <= p <= |s|
    ensures s[..p][k..m] == s[k..m]
  {
  }

  lemma SliceSnoc<T>(s: seq<T>, k: nat)
    requires k < |s|
    ensures s[k..|s|] == s[..|s| - 1][k..|s| - 1] + [s[|s| - 1]] && s[k..] == s[k..|s|]
  {
  }

  function Max(a: int, b: int): int { if a < b then b else a }
  function Min(a: int, b: int): int { if a < b then a else b }
}

/** Looking rows up by a key: what `filter_by(key=...).first()` finds, as a position. */
module Rows {
  import opened Common

  /** The first row with the key; the length when there is none. */
  function Find<R, K(==)>(keyOf: R -> K, rows: seq<R>, key: K): (i: nat)
    ensures i <= |rows|
    ensures i < |rows| ==> keyOf(rows[i]) == key
  {
    if rows == [] || keyOf(rows[0]) == key then 0 else 1 + Find(keyOf, rows[1..], key)
  }

  function Lookup<R, K(==)>(keyOf: R -> K, rows: seq<R>, key: K): Option<R> {
    if Find(keyOf, rows, key) < |rows| then Some(rows[Find(keyOf, rows, key)]) else None
  }

  function Without<R>(rows: seq<R>, i: nat): seq<R>
    requires i < |rows|
  {
    rows[..i] + rows[i + 1..]
  }

  lemma {:induction false} FindPresent<R, K>(keyOf: R -> K, rows: seq<R>, i: nat)
    requires i < |rows|
    ensures Find(keyOf, rows, keyOf(rows[i])) <= i
  {
    if i > 0 {
      FindPresent(keyOf, rows[1..], i - 1);
    }
  }

  lemma {:induction false} FindAbsent<R, K>(keyOf: R -> K, rows: seq<R>, key: K)
    requires forall i :: 0 <= i < |rows| ==> keyOf(rows[i]) != key
    ensures Find(keyOf, rows, key) == |rows|
  {
    if rows != [] {
      assert keyOf(rows[0]) != key;
      FindAbsent(keyOf, rows[1..], key);
    }
  }

  /** Changing a row but not its key moves nothing. */
  lemma {:induction false} FindUpdated<R, K>(keyOf: R -> K, rows: seq<R>, i: nat, row: R, key: K)
    requires i < |rows| && keyOf(row) == keyOf(rows[i])
    ensures Find(keyOf, rows[i := row], key) == Find(keyOf, rows, key)
  {
    if i == 0 {
      assert rows[i := row][1..] == rows[1..];
    } else if keyOf(rows[0]) != key {
      assert rows[i := row][1..] == rows[1..][i - 1 := row];
      FindUpdated(keyOf, rows[1..], i - 1, row, key);
    }
  }

  lemma {:induction false} FindAppended<R, K>(keyOf: R -> K, rows: seq<R>, row: R, key: K)
    ensures Find(keyOf, rows + [row], key) ==
            if Find(keyOf, rows, key) < |rows| then Find(keyOf, rows, key)
            else if keyOf(row) == key then |rows| else |rows| + 1
  {
    if rows != [] && keyOf(rows[0]) != key {
      assert (rows + [row])[1..] == rows[1..] + [row];
      FindAppended(keyOf, rows[1..], row, key);
    }
  }

  lemma {:induction false} FindInPrefix<R, K>(keyOf: R -> K, rows: seq<R>, i: nat, key: K)
    requires i <= |rows|
    ensures Find(keyOf, rows[..i], key) == Min(i, Find(keyOf, rows, key))
  {
    if i > 0 && keyOf(rows[0]) != key {
      assert rows[..i][1..] == rows[1..][..i - 1];
      FindInPrefix(keyOf, rows[1..], i - 1, key);
    }
  }

  /** Removing a row moves the later ones up by one. */
  lemma {:induction false} FindWithout<R, K>(keyOf: R -> K, rows: seq<R>, k: nat, key: K)
    requires k < |rows| && keyOf(rows[k]) != key
    ensures Find(keyOf, rows, key) != k
    ensures Find(keyOf, Without(rows, k), key) == if Find(keyOf, rows, key) < k then Find(keyOf, rows, key) else Find(keyOf, rows, key) - 1
  {
    if k == 0 {
      assert Without(rows, k) == rows[1..];
    } else if keyOf(rows[0]) != key {
      assert Without(rows, k)[1..] == Without(rows[1..], k - 1);
      FindWithout(keyOf, rows[1..], k - 1, key);
    }
  }
}

/** Decimal printing and reading, and the base-16 reading the CRL builder applies to serial numbers. */
module Text {
  import opened Common

  predicate IsDigit(c: char) { '0' <= c <= '9' }

  predicate IsAscii(s: string) { forall i :: 0 <= i < |s| ==> s[i] < 128 as char }

  predicate AllDigits(s: string) { forall i :: 0 <= i < |s| ==> IsDigit(s[i]) }

  function DigitChar(d: nat): char
    requires d < 10
  {
    '0' + d as char
  }

  function DigitValue(c: char): nat
    requires IsDigit(c)
  {
    c as int - '0' as int
  }

  /** str(n) */
  function Decimal(n: nat): string {
    if n < 10 then [DigitChar(n)] else Decimal(n / 10) + [DigitChar(n % 10)]
  }

  function ReadDigits(s: string, radix: nat): nat
    requires AllDigits(s)
  {
    if s == [] then 0 else radix * ReadDigits(s[..|s| - 1], radix) + DigitValue(s[|s| - 1])
  }

  /** int(s): an optional sign and at least one digit. */
  function ParseInt(s: string): Option<int> {
    if s != [] && AllDigits(s) then Some(ReadDigits(s, 10))
    else if |s| > 1 && s[0] == '+' && AllDigits(s[1..]) then Some(ReadDigits(s[1..], 10))
    else if |s| > 1 && s[0] == '-' && AllDigits(s[1..]) then Some(0 - ReadDigits(s[1..], 10) as int)
    else None
  }

  lemma {:induction false} DecimalReadsBack(n: nat)
    ensures Decimal(n) != [] && AllDigits(Decimal(n)) && ReadDigits(Decimal(n), 10) == n
  {
    if n >= 10 {
      DecimalReadsBack(n / 10);
      assert Decimal(n)[..|Decimal(n)| - 1] == Decimal(n / 10);
    } else {
      assert Decimal(n)[..0] == [];
    }
  }

  lemma DecimalInjective(a: nat, b: nat)
    requires Decimal(a) == Decimal(b)
    ensures a == b
  {
    DecimalReadsBack(a);
    DecimalReadsBack(b);
  }

  /** Two texts that agree after a digit string and a separator agree on the digit string. */
  lemma {:induction false} DigitPrefixUnique(d: string, e: string, sep: char, x: string, y: string)
    requires AllDigits(d) && AllDigits(e) && !IsDigit(sep)
    requires d + [sep] + x == e + [sep] + y
    ensures d == e && x == y
  {
    var l, r := d + [sep] + x, e + [sep] + y;
    assert l[|d|] == sep && r[|e|] == sep;
    assert forall i :: 0 <= i < |d| ==> IsDigit(l[i]);
    assert forall i :: 0 <= i < |e| ==> IsDigit(r[i]);
    assert d == l[..|d|] == r[..|e|] == e;
    assert x == l[|d| + 1..] == r[|e| + 1..] == y;
  }

  /** Exactly a run of digits, with at most one sign before it. */
  lemma {:induction false} ReadsIntIff(s: string)
    ensures ParseInt(s).Some? <==> exists d :: d != "" && AllDigits(d) && (s == d || s == "+" + d || s == "-" + d)
  {
    if ParseInt(s).Some? {
      if !AllDigits(s) {
        assert s[1..] != "" && AllDigits(s[1..]) && (s == "+" + s[1..] || s == "-" + s[1..]);
      }
    }
    if d :| d != "" && AllDigits(d) && (s == d || s == "+" + d || s == "-" + d) {
      SignIsRead(d);
    }
  }

  lemma {:induction false} SignIsRead(d: string)
    requires d != "" && AllDigits(d)
    ensures ParseInt(d) == ParseInt("+" + d) == Some(ReadDigits(d, 10)) && ParseInt("-" + d) == Some(-(ReadDigits(d, 10) as int))
  {
    var plus, minus := "+" + d, "-" + d;
    assert plus[1..] == d && minus[1..] == d && !IsDigit(plus[0]) && !IsDigit(minus[0]);
  }

  // ---- serial numbers ----

  function HexDigitValue(c: char): Option<nat> {
    if '0' <= c <= '9' then Some(c as int - '0' as int)
    else if 'a' <= c <= 'f' then Some(c as int - 'a' as int + 10)
    else if 'A' <= c <= 'F' then Some(c as int - 'A' as int + 10)
    else None
  }

  /** int(s, 16) on plain hexadecimal digits; None where it raises. */
  function ReadHex(s: string): Option<nat> {
    if s == [] then None
    else
      match HexDigitValue(s[|s| - 1])
      case None => None
      case Some(d) =>
        if |s| == 1 then Some(d)
        else
          match ReadHex(s[..|s| - 1])
          case None => None
          case Some(n) => Some(16 * n + d)
  }

  /** s.replace(':', '') */
  function DropColons(s: string): string {
    if s == [] then [] else DropColons(s[..|s| - 1]) + if s[|s| - 1] == ':' then [] else [s[|s| - 1]]
  }

  const SERIAL_LIMIT: nat := 0x8000000000000000000000000000000000000000

  /** The serial a CRL entry carries: hexadecimal reading, cut to its low 159 bits. */
  function EntrySerial(s: string): Option<nat> {
    match ReadHex(DropColons(s))
    case None => None
    case Some(n) => Some(n % SERIAL_LIMIT)
  }

  /** The digits of base 16, in either case. */
  predicate StandsFor(c: char, d: nat) { d < 16 && ("0123456789abcdef"[d] == c || "0123456789ABCDEF"[d] == c) }

  lemma {:induction false} DigitValueIs(c: char, d: nat)
    ensures HexDigitValue(c) == Some(d) <==> StandsFor(c, d)
  {
    assert forall k :: 0 <= k < 10 ==> "0123456789abcdef"[k] == '0' + k as char && "0123456789ABCDEF"[k] == '0' + k as char;
    assert forall k :: 10 <= k < 16 ==> "0123456789abcdef"[k] == 'a' + (k - 10) as char && "0123456789ABCDEF"[k] == 'A' + (k - 10) as char;
  }

  function HexDigit(d: nat): char
    requires d < 16
  {
    if d < 10 then '0' + d as char else 'a' + (d - 10) as char
  }

  /** format(n, 'x') */
  function HexText(n: nat): string {
    if n < 16 then [HexDigit(n)] else HexText(n / 16) + [HexDigit(n % 16)]
  }

  lemma {:induction false} HexReadsBack(n: nat)
    ensures ReadHex(HexText(n)) == Some(n)
  {
    if n < 16 {
      assert [HexDigit(n)][..0] == [];
    } else {
      HexReadsBack(n / 16);
      assert HexText(n)[..|HexText(n)| - 1] == HexText(n / 16);
    }
  }

  lemma {:induction false} HexHasNoColons(n: nat)
    ensures DropColons(HexText(n)) == HexText(n)
  {
    if n < 16 {
      assert [HexDigit(n)][..0] == [];
    } else {
      HexHasNoColons(n / 16);
      assert HexText(n)[..|HexText(n)| - 1] == HexText(n / 16);
    }
  }

  lemma {:induction false} DecimalReadAsHex(n: nat)
    ensures ReadHex(Decimal(n)).Some?
    ensures ReadHex(Decimal(n)).value >= n
    ensures ReadHex(Decimal(n)).value == n <==> n < 10
  {
    if n >= 10 {
      DecimalReadAsHex(n / 10);
      DecimalReadsBack(n / 10);
      assert Decimal(n)[..|Decimal(n)| - 1] == Decimal(n / 10);
    }
  }

  // ---- decimal digits read in base 16 ----

  /** The decimal digits of n as a number in base 16. */
  function Hexed(n: nat): nat {
    if n < 10 then n else 16 * Hexed(n / 10) + n % 10
  }

  lemma {:induction false} ReadHexIsHexed(n: nat)
    ensures ReadHex(Decimal(n)) == Some(Hexed(n))
  {
    if n >= 10 {
      ReadHexIsHexed(n / 10);
      DecimalReadsBack(n / 10);
      assert Decimal(n)[..|Decimal(n)| - 1] == Decimal(n / 10);
    }
  }

  function Pow(b: nat, j: nat): nat {
    if j == 0 then 1 else b * Pow(b, j - 1)
  }

  lemma {:induction false} PowPositive(b: nat, j: nat)
    requires b > 0
    ensures Pow(b, j) > 0
  {
    if j > 0 {
      PowPositive(b, j - 1);
    }
  }

  lemma {:induction false} MulStep(m: nat, p: nat, q: nat)
    requires p < q
    ensures m * p + m <= m * q
  {
    assert m * q == m * p + m * (q - p);
    assert m * (q - p) == m + m * (q - p - 1);
  }

  /** A quotient and a remainder that fit are the quotient and the remainder. */
  lemma {:induction false} DivisionUnique(m: nat, p: nat, r: nat, q: nat, s: nat)
    requires r < m && s < m && m * p + r == m * q + s
    ensures p == q && r == s
  {
    if p < q {
      MulStep(m, p, q);
    } else if q < p {
      MulStep(m, q, p);
    }
  }

  lemma {:induction false} ModIs(x: nat, m: nat, q: nat, r: nat)
    requires r < m && x == m * q + r
    ensures x % m == r
  {
    DivisionUnique(m, x / m, x % m, q, r);
  }

  lemma {:induction false} Regroup(b: nat, m: nat, q: nat, l: nat, r: nat)
    ensures b * (m * q + l) + r == (b * m) * q + (b * l + r)
  {
    assert b * (m * q + l) == b * (m * q) + b * l;
    assert b * (m * q) == (b * m) * q;
  }

  /** The low digit, and the low digits above it. */
  lemma {:induction false} ModSplit(b: nat, a: nat, r: nat, m: nat)
    requires r < b && m > 0
    ensures b * m > 0 && (b * a + r) % (b * m) == b * (a % m) + r
  {
    var q, l := a / m, a % m;
    assert a == m * q + l;
    Regroup(b, m, q, l, r);
    MulStep(b, l, m);
    var k, x, low := b * m, b * a + r, b * l + r;
    ModIs(x, k, q, low);
  }

  lemma {:induction false} ModOfMultiple(x: nat, m: nat, t: nat)
    requires m > 0 && t > 0
    ensures m * t > 0 && (x % (m * t)) % m == x % m
  {
    MulStep(m, 0, t);
    var k := m * t;
    var q, r := x / k, x % k;
    assert x == k * q + r;
    var p, l := r / m, r % m;
    assert r == m * p + l;
    MultipleAdds(m, t, q, p);
    ModIs(x, m, t * q + p, l);
  }

  lemma {:induction false} MultipleAdds(m: nat, t: nat, q: nat, p: nat)
    ensures (m * t) * q + m * p == m * (t * q + p)
  {
    assert (m * t) * q == m * (t * q);
  }

  /** The low j digits of the base-16 reading are the base-16 reading of the low j digits. */
  // ---- reading in base 16, place by place ----

  lemma {:induction false} ReadHexDigit(c: char, d: nat)
    ensures ReadHex([c]) == Some(d) <==> StandsFor(c, d)
  {
    DigitValueIs(c, d);
  }

  predicate IsHex(c: char) { exists d :: 0 <= d < 16 && StandsFor(c, d) }

  lemma {:induction false} IsHexIff(c: char)
    ensures IsHex(c) <==> HexDigitValue(c).Some?
  {
    if HexDigitValue(c).Some? {
      DigitValueIs(c, HexDigitValue(c).value);
    }
    if d :| 0 <= d < 16 && StandsFor(c, d) {
      DigitValueIs(c, d);
    }
  }

  predicate AllHex(s: string) { forall i :: 0 <= i < |s| ==> IsHex(s[i]) }

  /** A text is read exactly when it is not empty and all of it are digits. */
  lemma {:induction false} ReadHexSome(s: string)
    ensures ReadHex(s).Some? <==> s != [] && AllHex(s)
  {
    if s != [] {
      var n := |s| - 1;
      ReadHexSome(s[..n]);
      IsHexIff(s[n]);
      assert AllHex(s) <==> AllHex(s[..n]) && IsHex(s[n]) by {
        if AllHex(s[..n]) && IsHex(s[n]) {
          forall i | 0 <= i < |s| ensures IsHex(s[i]) {
            assert i < n ==> s[..n][i] == s[i];
          }
        }
      }
    }
  }

  /** The left part counts as many places up as the right part is long. */
  lemma {:induction false} ReadHexPlaces(a: string, b: string)
    requires ReadHex(a).Some? && ReadHex(b).Some?
    ensures ReadHex(a + b) == Some(ReadHex(a).value * Pow(16, |b|) + ReadHex(b).value)
  {
    var n, s := |b| - 1, a + b;
    assert s[..|s| - 1] == a + b[..n] && s[|s| - 1] == b[n];
    if n == 0 {
      assert b[..0] == [] && a + b[..0] == a;
      assert Pow(16, 1) == 16 * Pow(16, 0);
    } else {
      ReadHexPlaces(a, b[..n]);
      PlaceUp(ReadHex(a).value, Pow(16, n), ReadHex(b[..n]).value);
    }
  }

  lemma PlaceUp(x: nat, p: nat, y: nat)
    ensures 16 * (x * p + y) == x * (16 * p) + 16 * y
  {
  }

  lemma {:induction false} DropSnoc(s: string, c: char)
    ensures DropColons(s + [c]) == if c == ':' then DropColons(s) else DropColons(s) + [c]
  {
    assert (s + [c])[..|s|] == s;
    assert DropColons(s) + [] == DropColons(s);
  }

  /** A colon anywhere is passed over. */
  lemma {:induction false} ColonsArePassedOver(a: string, b: string)
    ensures DropColons(a + ":" + b) == DropColons(a + b)
    ensures EntrySerial(a + ":" + b) == EntrySerial(a + b)
  {
    if b == [] {
      assert a + ":" + b == a + [':'] && a + b == a;
      DropSnoc(a, ':');
    } else {
      var n := |b| - 1;
      ColonsArePassedOver(a, b[..n]);
      assert a + ":" + b == (a + ":" + b[..n]) + [b[n]] && a + b == (a + b[..n]) + [b[n]];
      DropSnoc(a + ":" + b[..n], b[n]);
      DropSnoc(a + b[..n], b[n]);
    }
  }

  lemma {:induction false} LowDigits(n: nat, j: nat)
    ensures Pow(16, j) > 0 && Pow(10, j) > 0 && Hexed(n) % Pow(16, j) == Hexed(n % Pow(10, j))
  {
    PowPositive(16, j);
    PowPositive(10, j);
    if j > 0 {
      var m, k := Pow(16, j - 1), Pow(10, j - 1);
      LowDigits(n / 10, j - 1);
      HexedStep(n);
      ModSplit(16, Hexed(n / 10), n % 10, m);
      assert n == 10 * (n / 10) + n % 10;
      ModSplit(10, n / 10, n % 10, k);
      var low := n % Pow(10, j);
      assert low == 10 * ((n / 10) % k) + n % 10;
      assert low / 10 == (n / 10) % k && low % 10 == n % 10;
      HexedStep(low);
    }
  }

  lemma {:induction false} HexedStep(n: nat)
    ensures Hexed(n) == 16 * Hexed(n / 10) + n % 10
  {
  }

  lemma {:induction false} Associate(x: nat, y: nat, z: nat)
    ensures x * (y * z) == (x * y) * z
  {
  }

  lemma {:induction false} PowAdds(b: nat, i: nat, j: nat)
    ensures Pow(b, i + j) == Pow(b, i) * Pow(b, j)
  {
    if i > 0 {
      PowAdds(b, i - 1, j);
      Associate(b, Pow(b, i - 1), Pow(b, j));
    }
  }

  lemma {:induction false} LimitIsPower()
    ensures SERIAL_LIMIT == 8 * Pow(16, 39)
  {
    assert Pow(16, 3) == 0x1000;
    PowAdds(16, 3, 3);
    PowAdds(16, 6, 6);
    PowAdds(16, 12, 12);
    PowAdds(16, 24, 12);
    PowAdds(16, 36, 3);
  }

  lemma {:induction false} Eightfold(a: nat, b: nat)
    ensures 8 * (a * b) == a * (8 * b)
  {
  }

  lemma {:induction false} CutByPower(x: nat, p: nat, q: nat)
    requires p > 0 && q > 0 && SERIAL_LIMIT == 8 * (p * q)
    ensures (x % SERIAL_LIMIT) % p == x % p
  {
    Eightfold(p, q);
    ModOfMultiple(x, p, 8 * q);
  }

  /** Cutting to 159 bits leaves the low 39 hexadecimal digits. */
  lemma {:induction false} CutKeepsLow(x: nat, j: nat)
    requires j <= 39
    ensures Pow(16, j) > 0 && (x % SERIAL_LIMIT) % Pow(16, j) == x % Pow(16, j)
  {
    PowPositive(16, j);
    PowPositive(16, 39 - j);
    PowAdds(16, j, 39 - j);
    LimitIsPower();
    CutByPower(x, Pow(16, j), Pow(16, 39 - j));
  }
}
