// Open Location Codes of eleven characters: ten digits that name a cell of 1/8000 degree, and '+'.
module Olc {

  const OLC_CODE_LEN := 11

  const ALPHABET: string := "23456789CFGHJMPQRVWX"

  // ---- What a code means ---------------------------------------------------------------------

  function DigitValue(c: char): int {
    match c
    case '2' => 0 case '3' => 1 case '4' => 2 case '5' => 3 case '6' => 4
    case '7' => 5 case '8' => 6 case '9' => 7 case 'C' => 8 case 'F' => 9
    case 'G' => 10 case 'H' => 11 case 'J' => 12 case 'M' => 13 case 'P' => 14
    case 'Q' => 15 case 'R' => 16 case 'V' => 17 case 'W' => 18 case 'X' => 19
    case _ => -1
  }

  predicate WellFormed(code: string) {
    && |code| == OLC_CODE_LEN
    && code[8] == '+'
    && forall i | 0 <= i < OLC_CODE_LEN && i != 8 :: DigitValue(code[i]) >= 0
  }

  // Pairs of digits, latitude first, in steps of 20, 1, 1/20, 1/400 and 1/8000 degree.
  function Degrees(d0: int, d1: int, d2: int, d3: int, d4: int): real {
    20.0 * d0 as real + d1 as real + d2 as real / 20.0 + d3 as real / 400.0 + d4 as real / 8000.0
  }

  function South(code: string): real
    requires WellFormed(code)
  {
    Degrees(DigitValue(code[0]), DigitValue(code[2]), DigitValue(code[4]),
            DigitValue(code[6]), DigitValue(code[9])) - 90.0
  }

  function West(code: string): real
    requires WellFormed(code)
  {
    Degrees(DigitValue(code[1]), DigitValue(code[3]), DigitValue(code[5]),
            DigitValue(code[7]), DigitValue(code[10])) - 180.0
  }

  predicate InCell(code: string, latitude: real, longitude: real)
    requires WellFormed(code)
  {
    && South(code) <= latitude < South(code) + 1.0 / 8000.0
    && West(code) <= longitude < West(code) + 1.0 / 8000.0
  }

  // ---- The point that is encoded --------------------------------------------------------------

  function Clipped(lat: real): real {
    if lat < -90.0 then -90.0 else if lat < 90.0 then lat else 90.0 - 1.0 / 80000.0
  }

  function Wrapped(lon: real): real {
    lon - 360.0 * ((lon + 180.0) / 360.0).Floor as real
  }

  // ---- The digits that are written -------------------------------------------------------------

  function Digit(value: int): char {
    ALPHABET[value % 20]
  }

  function Pairs(lat: nat, lng: nat, n: nat): string {
    if n == 0 then "" else Pairs(lat / 20, lng / 20, n - 1) + [Digit(lat), Digit(lng)]
  }

  function Code(lat: nat, lng: nat): string {
    Pairs(lat / 20, lng / 20, 4) + "+" + [Digit(lat), Digit(lng)]
  }

  lemma DigitHasValue(value: int)
    ensures DigitValue(Digit(value)) == value % 20
  {
  }

  lemma PairsCharacters(lat: nat, lng: nat)
    ensures Pairs(lat, lng, 4) ==
            [Digit(lat / 8000), Digit(lng / 8000), Digit(lat / 400), Digit(lng / 400),
             Digit(lat / 20), Digit(lng / 20), Digit(lat), Digit(lng)]
  {
    Quotients(lat);
    Quotients(lng);
    assert Pairs(lat / 8000, lng / 8000, 1) == [Digit(lat / 8000), Digit(lng / 8000)];
    assert Pairs(lat / 400, lng / 400, 2) == Pairs(lat / 8000, lng / 8000, 1) + [Digit(lat / 400), Digit(lng / 400)];
    assert Pairs(lat / 20, lng / 20, 3) == Pairs(lat / 400, lng / 400, 2) + [Digit(lat / 20), Digit(lng / 20)];
  }

  lemma Quotients(n: nat)
    ensures n / 20 / 20 == n / 400 && n / 400 / 20 == n / 8000 && n / 8000 / 20 == n / 160000
  {
  }

  lemma CodeCharacters(lat: nat, lng: nat)
    ensures Code(lat, lng) ==
            [Digit(lat / 160000), Digit(lng / 160000), Digit(lat / 8000), Digit(lng / 8000),
             Digit(lat / 400), Digit(lng / 400), Digit(lat / 20), Digit(lng / 20), '+', Digit(lat), Digit(lng)]
  {
    PairsCharacters(lat / 20, lng / 20);
    assert lat / 20 / 8000 == lat / 160000 && lat / 20 / 400 == lat / 8000 && lat / 20 / 20 == lat / 400;
    assert lng / 20 / 8000 == lng / 160000 && lng / 20 / 400 == lng / 8000 && lng / 20 / 20 == lng / 400;
  }

  lemma CodeReadsBack(code: string, a: int, b: int, c: int, d: int, e: int, p: int, q: int, r: int, s: int, t: int)
    requires code == [Digit(a), Digit(p), Digit(b), Digit(q), Digit(c), Digit(r),
                      Digit(d), Digit(s), '+', Digit(e), Digit(t)]
    ensures WellFormed(code)
    ensures South(code) == Degrees(a % 20, b % 20, c % 20, d % 20, e % 20) - 90.0
    ensures West(code) == Degrees(p % 20, q % 20, r % 20, s % 20, t % 20) - 180.0
  {
    DigitHasValue(a);
    DigitHasValue(b);
    DigitHasValue(c);
    DigitHasValue(d);
    DigitHasValue(e);
    DigitHasValue(p);
    DigitHasValue(q);
    DigitHasValue(r);
    DigitHasValue(s);
    DigitHasValue(t);
  }

  // ---- Writing and reading back ----------------------------------------------------------------

  // Five digits hold every count of cells below 20^5.
  lemma DigitsHoldCount(n: nat)
    requires n < 3_200_000
    ensures Degrees(n / 160000 % 20, n / 8000 % 20, n / 400 % 20, n / 20 % 20, n % 20) == n as real / 8000.0
  {
    Quotients(n);
    assert n == 20 * (n / 20) + n % 20;
    assert n / 20 == 20 * (n / 400) + n / 20 % 20;
    assert n / 400 == 20 * (n / 8000) + n / 400 % 20;
    assert n / 8000 == 20 * (n / 160000) + n / 8000 % 20;
    assert n / 160000 % 20 == n / 160000;
  }

  lemma CodeNamesCell(lat: nat, lng: nat)
    requires lat < 3_200_000 && lng < 3_200_000
    ensures WellFormed(Code(lat, lng))
    ensures South(Code(lat, lng)) == lat as real / 8000.0 - 90.0
    ensures West(Code(lat, lng)) == lng as real / 8000.0 - 180.0
  {
    CodeCharacters(lat, lng);
    CodeReadsBack(Code(lat, lng), lat / 160000, lat / 8000, lat / 400, lat / 20, lat,
                  lng / 160000, lng / 8000, lng / 400, lng / 20, lng);
    DigitsHoldCount(lat);
    DigitsHoldCount(lng);
  }

  // Counting fine cells and dividing gives the coarse cell.
  lemma FineLatitude(t: real)
    requires t >= 0.0
    ensures (t * 3125.0).Floor / 3125 == t.Floor
  {
  }

  lemma FineLongitude(t: real)
    requires t >= 0.0
    ensures (t * 1024.0).Floor / 1024 == t.Floor
  {
  }

  function LatitudeCell(lat: real): int {
    ((Clipped(lat) + 90.0) * 8000.0).Floor
  }

  function LongitudeCell(lon: real): int {
    ((Wrapped(lon) + 180.0) * 8000.0).Floor
  }

  lemma WrappedIsNormal(lon: real)
    ensures -180.0 <= Wrapped(lon) < 180.0
  {
  }

  lemma FloorOf(x: real, n: int)
    requires n as real <= x < n as real + 1.0
    ensures x.Floor == n
  {
  }

  lemma OnlyOneWrap(lon: real, longitude: real, turns: int)
    requires longitude == lon + 360.0 * turns as real && -180.0 <= longitude < 180.0
    ensures longitude == Wrapped(lon)
  {
    var n := -turns;
    FloorOf((lon + 180.0) / 360.0, n);
  }

  lemma CellsAreInRange(lat: real, lon: real)
    ensures 0 <= LatitudeCell(lat) < 180 * 8000 && 0 <= LongitudeCell(lon) < 360 * 8000
  {
    WrappedIsNormal(lon);
  }

  lemma CodeContainsPoint(lat: real, lon: real)
    ensures 0 <= LatitudeCell(lat) && 0 <= LongitudeCell(lon)
    ensures var code := Code(LatitudeCell(lat), LongitudeCell(lon));
            WellFormed(code) && InCell(code, Clipped(lat), Wrapped(lon))
  {
    CellsAreInRange(lat, lon);
    CodeNamesCell(LatitudeCell(lat), LongitudeCell(lon));
  }

  // A point on the map stays where it is, and a latitude beyond a pole becomes the last one before it.
  lemma PointsAreKept(lat: real, lon: real)
    ensures -90.0 <= lat < 90.0 ==> Clipped(lat) == lat
    ensures lat < -90.0 ==> Clipped(lat) == -90.0
    ensures 90.0 <= lat ==> 90.0 - 1.0 / 8000.0 < Clipped(lat) < 90.0
    ensures -180.0 <= lon < 180.0 ==> Wrapped(lon) == lon
  {
    if -180.0 <= lon < 180.0 {
      OnlyOneWrap(lon, lon, 0);
    }
  }

  lemma CodeContainsPointItself(lat: real, lon: real)
    requires -90.0 <= lat < 90.0 && -180.0 <= lon < 180.0
    ensures 0 <= LatitudeCell(lat) && 0 <= LongitudeCell(lon)
    ensures var code := Code(LatitudeCell(lat), LongitudeCell(lon)); WellFormed(code) && InCell(code, lat, lon)
  {
    CodeContainsPoint(lat, lon);
    PointsAreKept(lat, lon);
  }

  // Two points share a code exactly when they lie in the same cell.
  lemma CodeIsOneToOne(a: nat, b: nat, c: nat, d: nat)
    requires a < 3_200_000 && b < 3_200_000 && c < 3_200_000 && d < 3_200_000
    ensures Code(a, b) == Code(c, d) <==> a == c && b == d
  {
    CodeNamesCell(a, b);
    CodeNamesCell(c, d);
  }

  // Of all codes, the one whose counts are the point's is the only one whose cell has the point in it.
  lemma OnlyOneCell(lat: real, lon: real, a: nat, b: nat)
    requires a < 3_200_000 && b < 3_200_000
    ensures WellFormed(Code(a, b))
    ensures InCell(Code(a, b), Clipped(lat), Wrapped(lon)) <==> a == LatitudeCell(lat) && b == LongitudeCell(lon)
  {
    CodeNamesCell(a, b);
  }

  // ---- The conversion ---------------------------------------------------------------------------

  method Normalize(lat: real, lon: real) returns (latitude: real, longitude: real)
    ensures latitude == Clipped(lat) && longitude == Wrapped(lon)
  {
    var bounded := if lat < -90.0 then -90.0 else lat;
    var latitudeDegrees := if bounded < 90.0 then bounded else 90.0;
    if latitudeDegrees < 90.0 {
      latitude := latitudeDegrees;
    } else {
      var precision := 1.0 / 8000.0 / 5.0;
      latitude := latitudeDegrees - precision / 2.0;
    }
    longitude := lon;
    ghost var turns := 0;
    while longitude < -180.0
      invariant longitude == lon + 360.0 * turns as real
      invariant longitude < 180.0 || longitude == lon
      decreases -longitude
    {
      longitude := longitude + 360.0;
      turns := turns + 1;
    }
    while longitude >= 180.0
      invariant longitude == lon + 360.0 * turns as real
      invariant longitude >= -180.0
      decreases longitude
    {
      longitude := longitude - 360.0;
      turns := turns - 1;
    }
    OnlyOneWrap(lon, longitude, turns);
  }

  lemma FineCounts(latitude: real, longitude: real)
    requires latitude >= -90.0 && longitude >= -180.0
    ensures var fine := (2250000000.0 + latitude * 25000000.0).Floor;
            fine >= 0 && fine / 3125 == ((latitude + 90.0) * 8000.0).Floor
    ensures var fine := (1474560000.0 + longitude * 8192000.0).Floor;
            fine >= 0 && fine / 1024 == ((longitude + 180.0) * 8000.0).Floor
  {
    var s, t := (latitude + 90.0) * 8000.0, (longitude + 180.0) * 8000.0;
    assert 2250000000.0 + latitude * 25000000.0 == s * 3125.0;
    assert 1474560000.0 + longitude * 8192000.0 == t * 1024.0;
    FineLatitude(s);
    FineLongitude(t);
  }

  // The fixed-point counts that the digits are taken from.
  method FixedPoint(lat: real, lon: real) returns (latVal: nat, lngVal: nat)
    ensures latVal / 3125 == LatitudeCell(lat) && lngVal / 1024 == LongitudeCell(lon)
  {
    var latitude, longitude := Normalize(lat, lon);
    WrappedIsNormal(lon);
    FineCounts(latitude, longitude);
    latVal := (2250000000.0 + latitude * 25000000.0).Floor;
    lngVal := (1474560000.0 + longitude * 8192000.0).Floor;
  }

  function Divided(n: nat, k: nat, times: nat): nat
    requires k > 0
  {
    if times == 0 then n else Divided(n, k, times - 1) / k
  }

  lemma FiveDivisions(n: nat)
    ensures Divided(n, 5, 5) == n / 3125 && Divided(n, 4, 5) == n / 1024
  {
    assert Divided(n, 5, 1) == n / 5 && Divided(n, 4, 1) == n / 4;
    assert Divided(n, 5, 2) == n / 25 && Divided(n, 4, 2) == n / 16;
    assert Divided(n, 5, 3) == n / 125 && Divided(n, 4, 3) == n / 64;
    assert Divided(n, 5, 4) == n / 625 && Divided(n, 4, 4) == n / 256;
  }

  // The grid digits, which the pairs that follow overwrite up to the last.
  method WriteGrid(tempCode: array<char>, latStart: nat, lngStart: nat) returns (latVal: nat, lngVal: nat)
    requires tempCode.Length == 13
    modifies tempCode
    ensures latVal == latStart / 3125 && lngVal == lngStart / 1024
  {
    latVal, lngVal := latStart, lngStart;
    var pos := OLC_CODE_LEN;
    var i := 0;
    while i < 5
      invariant 0 <= i <= 5 && pos == OLC_CODE_LEN - i
      invariant latVal == Divided(latStart, 5, i) && lngVal == Divided(lngStart, 4, i)
    {
      var ndx := latVal % 5 * 4 + lngVal % 4;
      tempCode[pos] := ALPHABET[ndx];
      pos := pos - 1;
      latVal := latVal / 5;
      lngVal := lngVal / 4;
      i := i + 1;
    }
    FiveDivisions(latStart);
    FiveDivisions(lngStart);
  }

  // One round of the pair loop, from right to left; the first also writes the separator.
  method WritePair(tempCode: array<char>, start: int, i: nat, latVal: nat, lngVal: nat) returns (pos: int)
    requires tempCode.Length == 13 && start < OLC_CODE_LEN && (if i == 0 then start == 10 else 1 <= start)
    modifies tempCode
    ensures pos == (if i == 0 then start - 3 else start - 2)
    ensures tempCode[pos + 1..OLC_CODE_LEN] ==
            (if i == 0 then "+" else "") + [Digit(latVal), Digit(lngVal)] + old(tempCode[start + 1..OLC_CODE_LEN])
  {
    pos := start;
    ghost var tail := tempCode[start + 1..OLC_CODE_LEN];
    tempCode[pos] := ALPHABET[lngVal % 20];
    assert tempCode[pos..OLC_CODE_LEN] == [Digit(lngVal)] + tail;
    pos := pos - 1;
    tempCode[pos] := ALPHABET[latVal % 20];
    assert tempCode[pos..OLC_CODE_LEN] == [Digit(latVal), Digit(lngVal)] + tail;
    pos := pos - 1;
    if i == 0 {
      tempCode[pos] := '+';
      assert tempCode[pos..OLC_CODE_LEN] == "+" + ([Digit(latVal), Digit(lngVal)] + tail);
      pos := pos - 1;
    }
  }

  lemma OnePairMore(lat: nat, lng: nat, n: nat, tail: string)
    ensures Pairs(lat, lng, n + 1) + tail == Pairs(lat / 20, lng / 20, n) + ([Digit(lat), Digit(lng)] + tail)
  {
  }

  method WritePairs(tempCode: array<char>, latStart: nat, lngStart: nat)
    requires tempCode.Length == 13
    modifies tempCode
    ensures tempCode[..OLC_CODE_LEN] == Code(latStart, lngStart)
  {
    var latVal, lngVal := latStart, lngStart;
    var pos := 10;
    ghost var code := Code(latStart, lngStart);
    for i := 0 to 5
      invariant i == 0 ==> pos == 10 && latVal == latStart && lngVal == lngStart
      invariant i > 0 ==> pos == 9 - 2 * i && code == Pairs(latVal, lngVal, 5 - i) + tempCode[pos + 1..OLC_CODE_LEN]
    {
      ghost var tail := tempCode[pos + 1..OLC_CODE_LEN];
      pos := WritePair(tempCode, pos, i, latVal, lngVal);
      if i == 0 {
        assert tempCode[pos + 1..OLC_CODE_LEN] == "+" + [Digit(latVal), Digit(lngVal)];
      } else {
        OnePairMore(latVal, lngVal, 4 - i, tail);
        assert tempCode[pos + 1..OLC_CODE_LEN] == [Digit(latVal), Digit(lngVal)] + tail;
      }
      latVal := latVal / 20;
      lngVal := lngVal / 20;
    }
    assert tempCode[0..OLC_CODE_LEN] == tempCode[..OLC_CODE_LEN];
  }

  method LatLongToOLC(lat: real, lon: real) returns (code: string)
    ensures WellFormed(code) && InCell(code, Clipped(lat), Wrapped(lon))
    ensures 0 <= LatitudeCell(lat) && 0 <= LongitudeCell(lon) && code == Code(LatitudeCell(lat), LongitudeCell(lon))
  {
    var initial := "1234567890abc";
    var tempCode := new char[13](i requires 0 <= i < 13 => initial[i]);
    var latVal, lngVal := FixedPoint(lat, lon);
    latVal, lngVal := WriteGrid(tempCode, latVal, lngVal);
    WritePairs(tempCode, latVal, lngVal);
    CodeContainsPoint(lat, lon);
    code := tempCode[..OLC_CODE_LEN];
  }
}
