/** The packed RGBA colour of `utils.py` and the TypeError helper its
    setters use.

    The colour is one unsigned 32-bit integer laid out alpha | red | green |
    blue from the high byte down. On non-negative integers `x & 0xff0000`
    followed by `>> 16` is `(x / 0x1_0000) % 0x100`, and clearing a byte with
    `&= ~mask` subtracts that byte's weight; the model writes the bit
    operations in that arithmetic form. The read-only properties (`red`,
    `to_hex_color`, `toarray`, ...) are functions of the packed value `v`:
    `c.red` is `Red(c.v)`. */
module Utils {
  import opened Python
  import opened HexStrings

  type Byte = x: int | 0 <= x < 0x100
  type Word = x: int | 0 <= x < 0x1_0000_0000

  const HexFormatMessage := "Hex colors expected in the form: #RRGGBB"
  const ArrayLengthMessage := "Expected an array of length 3 or 4"
  /** The two types a channel setter accepts, as it names them. */
  const NumberTypes: seq<string> := ["int", "float"]

  // ---------------------------------------------------------------------
  // expected_type

  /** What iteration `i` of `expected_type`'s loop appends. */
  function Piece(names: seq<string>, i: nat): string
    requires i < |names|
  {
    (if i == |names| - 1 && |names| > 1 then " or" else "")
    + " " + names[i]
    + (if i > 0 && i < |names| - 1 then "," else "")
  }

  /** The text the first `k` iterations have built. */
  function Listing(names: seq<string>, k: nat): string
    requires k <= |names|
  {
    if k == 0 then "" else Listing(names, k - 1) + Piece(names, k - 1)
  }

  /** `repr` of a type name (type names hold no quote characters). */
  function Quoted(name: string): string {
    "'" + name + "'"
  }

  function ExpectedTypeMessage(t: string, names: seq<string>): string {
    "Expected" + Listing(names, |names|) + ", got instead " + Quoted(t)
  }

  /** `expected_type(t, expected)`: the TypeError naming the type received
      and the types accepted. */
  method ExpectedType(t: string, expected: seq<string>) returns (e: PyError)
    ensures e == TypeError(ExpectedTypeMessage(t, expected))
  {
    var expectedString := "";
    for i := 0 to |expected|
      invariant expectedString == Listing(expected, i)
    {
      if i == |expected| - 1 && |expected| > 1 {
        expectedString := expectedString + " or";
      }
      expectedString := expectedString + " " + expected[i];
      if i > 0 && i < |expected| - 1 {
        expectedString := expectedString + ",";
      }
    }
    e := TypeError("Expected" + expectedString + ", got instead " + Quoted(t));
  }

  /** With two accepted types, as every setter passes, the message reads
      "Expected A or B, got instead 'T'". */
  lemma ExpectedTwoTypes(t: string, a: string, b: string)
    ensures ExpectedTypeMessage(t, [a, b]) == "Expected " + a + " or " + b + ", got instead '" + t + "'"
  {
    var names := [a, b];
    assert Listing(names, 1) == " " + a;
    assert Listing(names, 2) == " " + a + " or " + b;
  }

  /** With three types the comma lands after the middle name only:
      "Expected A B, or C". */
  lemma ExpectedThreeTypes(t: string, a: string, b: string, c: string)
    ensures ExpectedTypeMessage(t, [a, b, c]) == "Expected " + a + " " + b + ", or " + c + ", got instead '" + t + "'"
  {
    var names := [a, b, c];
    assert Listing(names, 1) == " " + a;
    assert Listing(names, 2) == " " + a + " " + b + ",";
    assert Listing(names, 3) == " " + a + " " + b + ", or " + c;
  }

  // ---------------------------------------------------------------------
  // The packed value and its channels

  /** `color_int & 0xffffffff`: the representative of `colorInt` modulo
      2^32. */
  function Masked(colorInt: int): (w: Word)
    ensures (colorInt - w) % 0x1_0000_0000 == 0
    ensures 0 <= colorInt < 0x1_0000_0000 ==> w == colorInt
  {
    colorInt % 0x1_0000_0000
  }

  /** `(v & 0xff000000) >> 24` */
  function Alpha(w: Word): Byte {
    w / 0x100_0000
  }

  /** `(v & 0xff0000) >> 16` */
  function Red(w: Word): Byte {
    (w / 0x1_0000) % 0x100
  }

  /** `(v & 0xff00) >> 8` */
  function Green(w: Word): Byte {
    (w / 0x100) % 0x100
  }

  /** `v & 0xff` */
  function Blue(w: Word): Byte {
    w % 0x100
  }

  /** Alpha is the byte whose slot, bits 24-31, spans the word. */
  lemma AlphaSlot(w: Word)
    ensures Alpha(w) * 0x100_0000 <= w < (Alpha(w) + 1) * 0x100_0000
  {
  }

  /** Red is the byte whose slot, bits 16-23, holds the low 24 bits. */
  lemma RedSlot(w: Word)
    ensures Red(w) * 0x1_0000 <= w % 0x100_0000 < (Red(w) + 1) * 0x1_0000
  {
  }

  /** Green is the byte whose slot, bits 8-15, holds the low 16 bits. */
  lemma GreenSlot(w: Word)
    ensures Green(w) * 0x100 <= w % 0x1_0000 < (Green(w) + 1) * 0x100
  {
  }

  /** Blue is bits 0-7: the rest of the word is a multiple of 256. */
  lemma BlueSlot(w: Word)
    ensures (w - Blue(w)) % 0x100 == 0
  {
  }

  /** The word with the given four bytes in their slots. */
  function Pack(a: Byte, r: Byte, g: Byte, b: Byte): Word {
    a * 0x100_0000 + r * 0x1_0000 + g * 0x100 + b
  }

  /** Each getter reads back the byte packed into its slot. */
  lemma PackChannels(a: Byte, r: Byte, g: Byte, b: Byte)
    ensures var w := Pack(a, r, g, b);
      Alpha(w) == a && Red(w) == r && Green(w) == g && Blue(w) == b
  {
    var w := Pack(a, r, g, b);
    ByteStep(a * 0x1_0000 + r * 0x100 + g, b);
    ByteStep(a * 0x100 + r, g);
    ByteStep(a, r);
    assert w / 0x1_0000 == (w / 0x100) / 0x100;
    assert w / 0x100_0000 == ((w / 0x100) / 0x100) / 0x100;
  }

  /** One base-256 digit comes off with `/` and `%`. */
  lemma ByteStep(q: nat, d: Byte)
    ensures (q * 0x100 + d) / 0x100 == q && (q * 0x100 + d) % 0x100 == d
  {
  }

  /** The four getters read disjoint bytes that together make up the word:
      alpha bits 24-31, red 16-23, green 8-15, blue 0-7. */
  lemma Decompose(w: Word)
    ensures w == Alpha(w) * 0x100_0000 + Red(w) * 0x1_0000 + Green(w) * 0x100 + Blue(w)
    ensures w == Pack(Alpha(w), Red(w), Green(w), Blue(w))
  {
    var q1 := w / 0x100;
    var q2 := q1 / 0x100;
    var q3 := q2 / 0x100;
    assert w / 0x1_0000 == q2;
    assert w / 0x100_0000 == q3;
  }

  /** Clearing a byte and writing any byte in its place stays a word. */
  lemma SlotBounds(w: Word)
    ensures 0 <= w - Alpha(w) * 0x100_0000 && w - Alpha(w) * 0x100_0000 + 0xff * 0x100_0000 < 0x1_0000_0000
    ensures 0 <= w - Red(w) * 0x1_0000 && w - Red(w) * 0x1_0000 + 0xff * 0x1_0000 < 0x1_0000_0000
    ensures 0 <= w - Green(w) * 0x100 && w - Green(w) * 0x100 + 0xff * 0x100 < 0x1_0000_0000
    ensures 0 <= w - Blue(w) && w - Blue(w) + 0xff < 0x1_0000_0000
  {
    Decompose(w);
  }

  /** Words with the same four channels are the same word. */
  lemma ChannelsDetermine(w1: Word, w2: Word)
    requires Alpha(w1) == Alpha(w2) && Red(w1) == Red(w2) && Green(w1) == Green(w2) && Blue(w1) == Blue(w2)
    ensures w1 == w2
  {
    Decompose(w1);
    Decompose(w2);
  }

  // ---------------------------------------------------------------------
  // The channel setters, as functions of the packed value

  /** The byte an int or float assignment stores: `val & 0xff`, or
      `int(val * 255) & 0xff` for a float. */
  function ByteOf(val: PyValue): Byte
    requires !val.PyOther?
  {
    (if val.PyInt? then val.i else val.scaled) % 0x100
  }

  /** `c.red = val`: an int is cut to its low byte and stored in bits
      16-23, a float is stored as `int(val * 255)`, anything else raises
      TypeError and leaves the colour as it was. */
  function AssignRed(w: Word, val: PyValue): (r: Result<Word>)
    ensures r.Ok? <==> !val.PyOther?
    ensures r.Ok? ==> r.value == Pack(Alpha(w), ByteOf(val), Green(w), Blue(w))
    ensures val.PyOther? ==> r == Err(TypeError(ExpectedTypeMessage(val.typeName, NumberTypes)))
    decreases if val.PyFloat? then 1 else 0
  {
    match val
    case PyInt(i) =>
      Decompose(w);
      var cleared := w - Red(w) * 0x1_0000;
      var r := cleared + (i % 0x100) * 0x1_0000;
      assert r == Pack(Alpha(w), i % 0x100, Green(w), Blue(w));
      Ok(r)
    case PyFloat(scaled) => AssignRed(w, PyInt(scaled))
    case PyOther(name) => Err(TypeError(ExpectedTypeMessage(name, NumberTypes)))
  }

  /** `c.green = val`, as `AssignRed` for bits 8-15. */
  function AssignGreen(w: Word, val: PyValue): (r: Result<Word>)
    ensures r.Ok? <==> !val.PyOther?
    ensures r.Ok? ==> r.value == Pack(Alpha(w), Red(w), ByteOf(val), Blue(w))
    ensures val.PyOther? ==> r == Err(TypeError(ExpectedTypeMessage(val.typeName, NumberTypes)))
    decreases if val.PyFloat? then 1 else 0
  {
    match val
    case PyInt(i) =>
      Decompose(w);
      var cleared := w - Green(w) * 0x100;
      var r := cleared + (i % 0x100) * 0x100;
      assert r == Pack(Alpha(w), Red(w), i % 0x100, Blue(w));
      Ok(r)
    case PyFloat(scaled) => AssignGreen(w, PyInt(scaled))
    case PyOther(name) => Err(TypeError(ExpectedTypeMessage(name, NumberTypes)))
  }

  /** `c.blue = val`, as `AssignRed` for bits 0-7. */
  function AssignBlue(w: Word, val: PyValue): (r: Result<Word>)
    ensures r.Ok? <==> !val.PyOther?
    ensures r.Ok? ==> r.value == Pack(Alpha(w), Red(w), Green(w), ByteOf(val))
    ensures val.PyOther? ==> r == Err(TypeError(ExpectedTypeMessage(val.typeName, NumberTypes)))
    decreases if val.PyFloat? then 1 else 0
  {
    match val
    case PyInt(i) =>
      Decompose(w);
      var cleared := w - Blue(w);
      var r := cleared + i % 0x100;
      assert r == Pack(Alpha(w), Red(w), Green(w), i % 0x100);
      Ok(r)
    case PyFloat(scaled) => AssignBlue(w, PyInt(scaled))
    case PyOther(name) => Err(TypeError(ExpectedTypeMessage(name, NumberTypes)))
  }

  /** `c.alpha = val`: as the other setters for bits 24-31, except that a
      value neither int nor float is ignored instead of raising. */
  function AssignAlpha(w: Word, val: PyValue): (r: Word)
    ensures !val.PyOther? ==> r == Pack(ByteOf(val), Red(w), Green(w), Blue(w))
    ensures val.PyOther? ==> r == w
    decreases if val.PyFloat? then 1 else 0
  {
    match val
    case PyInt(i) =>
      Decompose(w);
      var cleared := w - Alpha(w) * 0x100_0000;
      var r := cleared + (i % 0x100) * 0x100_0000;
      assert r == Pack(i % 0x100, Red(w), Green(w), Blue(w));
      r
    case PyFloat(scaled) => AssignAlpha(w, PyInt(scaled))
    case PyOther(_) => w
  }

  /** After assigning an int or a float to a channel, its getter reads the
      stored byte back and the three other getters read what they read
      before. */
  lemma SettersReadBack(w: Word, val: PyValue)
    requires !val.PyOther?
    ensures var c := AssignRed(w, val).value;
      Red(c) == ByteOf(val) && Alpha(c) == Alpha(w) && Green(c) == Green(w) && Blue(c) == Blue(w)
    ensures var c := AssignGreen(w, val).value;
      Green(c) == ByteOf(val) && Alpha(c) == Alpha(w) && Red(c) == Red(w) && Blue(c) == Blue(w)
    ensures var c := AssignBlue(w, val).value;
      Blue(c) == ByteOf(val) && Alpha(c) == Alpha(w) && Red(c) == Red(w) && Green(c) == Green(w)
    ensures var c := AssignAlpha(w, val);
      Alpha(c) == ByteOf(val) && Red(c) == Red(w) && Green(c) == Green(w) && Blue(c) == Blue(w)
  {
    PackChannels(Alpha(w), ByteOf(val), Green(w), Blue(w));
    PackChannels(Alpha(w), Red(w), ByteOf(val), Blue(w));
    PackChannels(Alpha(w), Red(w), Green(w), ByteOf(val));
    PackChannels(ByteOf(val), Red(w), Green(w), Blue(w));
  }

  // ---------------------------------------------------------------------
  // from_hex_color and to_hex_color

  predicate IsHexColorBody(s: string) {
    |s| == 7 && s[0] == '#' && AllLowerHexDigits(s[1..])
  }

  /** `re.match(r'^#([0-9a-f]{6})$', s)`: `$` also matches just before a
      final newline. */
  predicate HexColorMatch(s: string) {
    IsHexColorBody(s) || (|s| == 8 && s[7] == '\n' && IsHexColorBody(s[..7]))
  }

  /** On a matching string `int(s[1:], 16)` reads exactly the six digits. */
  lemma HexColorPayload(s: string)
    requires HexColorMatch(s)
    ensures AllHexDigits(s[1..7])
    ensures IntBase16(s[1..]) == Some(ParseHex(s[1..7]))
  {
    var d := s[1..7];
    assert IsLowerHexDigit(d[0]);
    assert IsLowerHexDigit(d[5]);
    assert TrimStart(d) == d;
    if |s| == 7 {
      assert s[1..] == d;
      assert TrimEnd(d) == d;
    } else {
      assert s[1..] == d + "\n";
      assert TrimStart(d + "\n") == d + "\n";
      assert (d + "\n")[..6] == d;
      assert TrimEnd(d) == d;
    }
  }

  lemma Pow16Values()
    ensures Pow16(2) == 0x100 && Pow16(4) == 0x1_0000 && Pow16(6) == 0x100_0000
  {
    assert Pow16(1) == 16;
    assert Pow16(3) == 0x1000;
    assert Pow16(5) == 0x10_0000;
  }

  /** Six digits read as three two-digit bytes. */
  lemma SixDigits(d: string)
    requires |d| == 6 && AllHexDigits(d)
    ensures ParseHex(d[0..2]) < 0x100 && ParseHex(d[2..4]) < 0x100 && ParseHex(d[4..6]) < 0x100
    ensures ParseHex(d) == Pack(0, ParseHex(d[0..2]), ParseHex(d[2..4]), ParseHex(d[4..6]))
  {
    var x, y, z := d[0..2], d[2..4], d[4..6];
    assert d == x + (y + z);
    ParseHexAppend(y, z);
    ParseHexAppend(x, y + z);
    ParseHexBound(x);
    ParseHexBound(y);
    ParseHexBound(z);
    Pow16Values();
  }

  /** The digit pairs of a colour string, as slices of its six digits. */
  lemma PairSlices(s: string)
    requires |s| >= 7
    ensures s[1..7][0..2] == s[1..3] && s[1..7][2..4] == s[3..5] && s[1..7][4..6] == s[5..7]
  {
  }

  /** On a matching string the value read is the three digit pairs packed
      with alpha 0. */
  lemma HexColorPairs(s: string)
    requires HexColorMatch(s)
    ensures AllHexDigits(s[1..3]) && AllHexDigits(s[3..5]) && AllHexDigits(s[5..7])
    ensures ParseHex(s[1..3]) < 0x100 && ParseHex(s[3..5]) < 0x100 && ParseHex(s[5..7]) < 0x100
    ensures IntBase16(s[1..]) == Some(Pack(0, ParseHex(s[1..3]), ParseHex(s[3..5]), ParseHex(s[5..7])))
  {
    HexColorPayload(s);
    PairSlices(s);
    SixDigits(s[1..7]);
  }

  /** `RGBAColor.from_hex_color(s)`: the value of the six digits, so
      alpha is 0 and red, green and blue are the three digit pairs; a string
      the pattern rejects raises ValueError. */
  function ParseHexColor(s: string): (r: Result<Word>)
    ensures r.Ok? <==> HexColorMatch(s)
    ensures r.Err? ==> r.error == ValueError(HexFormatMessage)
    ensures r.Ok? ==>
      && AllHexDigits(s[1..3]) && AllHexDigits(s[3..5]) && AllHexDigits(s[5..7])
      && ParseHex(s[1..3]) < 0x100 && ParseHex(s[3..5]) < 0x100 && ParseHex(s[5..7]) < 0x100
      && r.value == Pack(0, ParseHex(s[1..3]), ParseHex(s[3..5]), ParseHex(s[5..7]))
  {
    if !HexColorMatch(s) then Err(ValueError(HexFormatMessage))
    else
      HexColorPairs(s);
      Ok(Masked(IntBase16(s[1..]).value))
  }

  /** `hex(w)[2:].rjust(6, '0')` reads back as `w` and has six digits
      exactly when `w < 2^24`. */
  lemma PaddedHex(w: Word)
    ensures |RJust(Hex(w), 6, '0')| >= 6
    ensures AllLowerHexDigits(RJust(Hex(w), 6, '0'))
    ensures ParseHex(RJust(Hex(w), 6, '0')) == w
    ensures |RJust(Hex(w), 6, '0')| == 6 <==> w < 0x100_0000
  {
    var digits := Hex(w);
    HexLength(w, 6);
    Pow16Values();
    var pad := if |digits| < 6 then 6 - |digits| else 0;
    ParseHexLeadingZeros(pad, digits);
    assert RJust(digits, 6, '0') == Repeat('0', pad) + digits;
  }

  /** `to_hex_color`: '#' and the lower-case hex of the whole word, padded
      with zeros to six digits; it reads back as the word, is longer than
      seven characters exactly when alpha is not 0, and then has no leading
      zero. */
  function ToHexColor(w: Word): (r: string)
    ensures |r| >= 7 && r[0] == '#' && AllLowerHexDigits(r[1..])
    ensures ParseHex(r[1..]) == w
    ensures |r| == 7 <==> Alpha(w) == 0
    ensures |r| > 7 ==> r[1] != '0'
  {
    PaddedHex(w);
    var padded := RJust(Hex(w), 6, '0');
    var r := "#" + padded;
    assert r[1..] == padded;
    r
  }

  /** Round trip: printing a parsed seven-character colour gives back the
      string. */
  lemma HexColorRoundTrip(s: string)
    requires |s| == 7 && HexColorMatch(s)
    ensures ParseHexColor(s).Ok? && ToHexColor(ParseHexColor(s).value) == s
  {
    HexColorPayload(s);
    var d := s[1..7];
    assert d == s[1..];
    var n := ParseHex(d);
    ParseHexBound(d);
    Pow16Values();
    assert ParseHexColor(s).value == n;
    var t := ToHexColor(n);
    ParseHexInjective(t[1..], d);
    assert t == [t[0]] + t[1..] && s == [s[0]] + d;
  }

  /** Round trip the other way: a printed word parses back to itself
      exactly when its alpha is 0, and is rejected otherwise. */
  lemma ToHexColorRoundTrip(w: Word)
    ensures ParseHexColor(ToHexColor(w)) ==
      if Alpha(w) == 0 then Ok(w) else Err(ValueError(HexFormatMessage))
  {
    var t := ToHexColor(w);
    if Alpha(w) == 0 {
      assert IsHexColorBody(t);
      HexColorPayload(t);
      assert t[1..7] == t[1..];
    } else {
      assert IsLowerHexDigit(t[1..][6]);
      assert !HexColorMatch(t);
    }
  }

  /** What the regular expression accepts and rejects. */
  lemma HexColorExamples()
    ensures HexColorMatch("#1a2b3c") && HexColorMatch("#abcdef\n")
    ensures !HexColorMatch("#ABCDEF") && !HexColorMatch("333333")
    ensures !HexColorMatch("#abcd") && !HexColorMatch("#gg0000")
  {
    assert !IsLowerHexDigit("#ABCDEF"[1..][0]);
    assert !IsLowerHexDigit("#gg0000"[1..][0]);
  }

  // ---------------------------------------------------------------------
  // from_array, toarray, toarray_noalpha, to_rgba_tuple

  /** `RGBAColor.from_array(arr)`: a zero colour whose red, green, blue and,
      for four elements, alpha are set from `arr` in that order. */
  function FromArrayValue(arr: seq<PyValue>): (r: Result<Word>)
    ensures (|arr| != 3 && |arr| != 4) ==> r == Err(ValueError(ArrayLengthMessage))
    ensures r.Ok? <==> (|arr| == 3 || |arr| == 4) && !arr[0].PyOther? && !arr[1].PyOther? && !arr[2].PyOther?
    ensures r.Ok? ==> r.value == Pack(
      if |arr| == 4 && !arr[3].PyOther? then ByteOf(arr[3]) else 0,
      ByteOf(arr[0]), ByteOf(arr[1]), ByteOf(arr[2]))
    ensures r.Err? && (|arr| == 3 || |arr| == 4) ==>
      exists i :: 0 <= i < 3 && arr[i].PyOther?
        && r.error == TypeError(ExpectedTypeMessage(arr[i].typeName, NumberTypes))
        && forall j :: 0 <= j < i ==> !arr[j].PyOther?
  {
    if |arr| != 3 && |arr| != 4 then Err(ValueError(ArrayLengthMessage))
    else
      match AssignRed(0, arr[0])
      case Err(e) => Err(e)
      case Ok(w1) =>
        PackChannels(0, ByteOf(arr[0]), 0, 0);
        match AssignGreen(w1, arr[1])
        case Err(e) => Err(e)
        case Ok(w2) =>
          PackChannels(0, ByteOf(arr[0]), ByteOf(arr[1]), 0);
          match AssignBlue(w2, arr[2])
          case Err(e) => Err(e)
          case Ok(w3) =>
            PackChannels(0, ByteOf(arr[0]), ByteOf(arr[1]), ByteOf(arr[2]));
            Ok(if |arr| == 4 then AssignAlpha(w3, arr[3]) else w3)
  }

  /** `toarray`: red, green, blue, alpha; the four bytes give back the word. */
  function ToArray(w: Word): (r: seq<Byte>)
    ensures |r| == 4 && Pack(r[3], r[0], r[1], r[2]) == w
  {
    Decompose(w);
    [Red(w), Green(w), Blue(w), Alpha(w)]
  }

  /** `toarray_noalpha`: `toarray` without its last element; the three bytes
      give back the word with alpha cleared. */
  function ToArrayNoAlpha(w: Word): (r: seq<Byte>)
    ensures |r| == 3 && Pack(0, r[0], r[1], r[2]) == w % 0x100_0000
  {
    Decompose(w);
    ToArray(w)[..3]
  }

  /** `to_rgba_tuple`: the same four bytes as a tuple. */
  function ToRgbaTuple(w: Word): (t: (Byte, Byte, Byte, Byte))
    ensures Pack(t.3, t.0, t.1, t.2) == w
  {
    Decompose(w);
    (Red(w), Green(w), Blue(w), Alpha(w))
  }

  function IntValues(bytes: seq<Byte>): (vals: seq<PyValue>)
    ensures |vals| == |bytes| && forall i :: 0 <= i < |bytes| ==> vals[i] == PyInt(bytes[i])
  {
    seq(|bytes|, i requires 0 <= i < |bytes| => PyInt(bytes[i]))
  }

  /** `from_array` on the channels of `c.toarray` as Python ints
      (`c.toarray.tolist()`) rebuilds the colour. */
  lemma FromArrayRoundTrip(w: Word)
    ensures FromArrayValue(IntValues(ToArray(w))) == Ok(w)
  {
    var a := IntValues(ToArray(w));
    assert a[0] == PyInt(Red(w)) && a[1] == PyInt(Green(w)) && a[2] == PyInt(Blue(w)) && a[3] == PyInt(Alpha(w));
    assert ByteOf(a[0]) == Red(w) && ByteOf(a[1]) == Green(w) && ByteOf(a[2]) == Blue(w) && ByteOf(a[3]) == Alpha(w);
    Decompose(w);
    assert FromArrayValue(a).value == Pack(Alpha(w), Red(w), Green(w), Blue(w));
  }

  /** `from_array` on the ints of `c.toarray_noalpha` rebuilds the colour
      with alpha 0. */
  lemma FromArrayNoAlphaRoundTrip(w: Word)
    ensures FromArrayValue(IntValues(ToArrayNoAlpha(w))) == Ok(w % 0x100_0000)
  {
    var a := IntValues(ToArrayNoAlpha(w));
    assert |a| == 3 && a[0] == PyInt(Red(w)) && a[1] == PyInt(Green(w)) && a[2] == PyInt(Blue(w));
    assert ByteOf(a[0]) == Red(w) && ByteOf(a[1]) == Green(w) && ByteOf(a[2]) == Blue(w);
    Decompose(w);
    assert FromArrayValue(a).value == Pack(0, Red(w), Green(w), Blue(w));
  }

  // ---------------------------------------------------------------------
  // The object

  class RGBAColor {
    /** The packed value. */
    var v: Word

    /** `RGBAColor(color_int)` keeps the low 32 bits. */
    constructor (colorInt: int)
      ensures v == Masked(colorInt)
    {
      v := Masked(colorInt);
    }

    /** `RGBAColor.from_hex_color(s)` */
    static method FromHexColor(s: string) returns (r: Result<RGBAColor>)
      ensures r.Ok? <==> HexColorMatch(s)
      ensures r.Ok? ==> fresh(r.value) && r.value.v == ParseHexColor(s).value
      ensures r.Err? ==> r.error == ValueError(HexFormatMessage)
    {
      if !HexColorMatch(s) {
        return Err(ValueError(HexFormatMessage));
      }
      HexColorPayload(s);
      var n := IntBase16(s[1..]).value;
      var c := new RGBAColor(n);
      return Ok(c);
    }

    /** `RGBAColor.from_array(arr)` */
    static method FromArray(arr: seq<PyValue>) returns (r: Result<RGBAColor>)
      ensures r.Ok? <==> FromArrayValue(arr).Ok?
      ensures r.Ok? ==> fresh(r.value) && r.value.v == FromArrayValue(arr).value
      ensures r.Err? ==> r.error == FromArrayValue(arr).error
    {
      if |arr| != 3 && |arr| != 4 {
        return Err(ValueError(ArrayLengthMessage));
      }
      var obj := new RGBAColor(0);
      var e := obj.SetRed(arr[0]);
      if e.Some? {
        return Err(e.value);
      }
      e := obj.SetGreen(arr[1]);
      if e.Some? {
        return Err(e.value);
      }
      e := obj.SetBlue(arr[2]);
      if e.Some? {
        return Err(e.value);
      }
      if |arr| == 4 {
        obj.SetAlpha(arr[3]);
      }
      return Ok(obj);
    }

    /** The `red` setter; `Some(e)` is the exception it raises. */
    method SetRed(val: PyValue) returns (err: Option<PyError>)
      modifies this
      ensures AssignRed(old(v), val) == if err.Some? then Err(err.value) else Ok(v)
      ensures err.Some? ==> v == old(v)
      decreases if val.PyFloat? then 1 else 0
    {
      match val
      case PyInt(i) =>
        var b := i % 0x100;
        SlotBounds(v);
        v := v - Red(v) * 0x1_0000;
        v := v + b * 0x1_0000;
        err := None;
      case PyFloat(scaled) =>
        err := SetRed(PyInt(scaled));
      case PyOther(name) =>
        var e := ExpectedType(name, NumberTypes);
        err := Some(e);
    }

    /** The `green` setter. */
    method SetGreen(val: PyValue) returns (err: Option<PyError>)
      modifies this
      ensures AssignGreen(old(v), val) == if err.Some? then Err(err.value) else Ok(v)
      ensures err.Some? ==> v == old(v)
      decreases if val.PyFloat? then 1 else 0
    {
      match val
      case PyInt(i) =>
        var b := i % 0x100;
        SlotBounds(v);
        v := v - Green(v) * 0x100;
        v := v + b * 0x100;
        err := None;
      case PyFloat(scaled) =>
        err := SetGreen(PyInt(scaled));
      case PyOther(name) =>
        var e := ExpectedType(name, NumberTypes);
        err := Some(e);
    }

    /** The `blue` setter. */
    method SetBlue(val: PyValue) returns (err: Option<PyError>)
      modifies this
      ensures AssignBlue(old(v), val) == if err.Some? then Err(err.value) else Ok(v)
      ensures err.Some? ==> v == old(v)
      decreases if val.PyFloat? then 1 else 0
    {
      match val
      case PyInt(i) =>
        SlotBounds(v);
        v := v - Blue(v);
        v := v + i % 0x100;
        err := None;
      case PyFloat(scaled) =>
        err := SetBlue(PyInt(scaled));
      case PyOther(name) =>
        var e := ExpectedType(name, NumberTypes);
        err := Some(e);
    }

    /** The `alpha` setter, which never raises. */
    method SetAlpha(val: PyValue)
      modifies this
      ensures v == AssignAlpha(old(v), val)
      decreases if val.PyFloat? then 1 else 0
    {
      match val
      case PyInt(i) =>
        SlotBounds(v);
        v := v - Alpha(v) * 0x100_0000;
        v := v + (i % 0x100) * 0x100_0000;
      case PyFloat(scaled) =>
        SetAlpha(PyInt(scaled));
      case PyOther(_) =>
    }
  }
}
