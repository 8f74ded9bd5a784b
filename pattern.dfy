/** The pattern transform of `__init__.py`: a colour configuration is
    converted into a palette of byte triples, every pixel of an image is
    classified against the palette in row-major order (`load_pattern`), and
    a pattern is painted back into a fresh image grid (`write_pattern`).

    A Python dict is modelled as the sequence of its entries in insertion
    order; a dict's keys are distinct, and lemmas that look a key up say so
    with `DistinctKeys`. Images are in-memory grids: the file reading and
    saving around them are outside the model. */
module Pattern {
  import opened Python
  import opened HexStrings
  import opened Utils

  /** The channel values of one pixel. */
  type Pixel = seq<int>

  /** A converted configuration: each key with its colour variants. */
  type Palette = seq<(string, seq<Pixel>)>

  /** A configuration as read from JSON: each key with its hex strings. */
  type RawConfig = seq<(string, seq<string>)>

  /** What `get_config_key` returns: the key and the index of the variant
      the pixel equals (-1 for none). */
  type Classification = (string, int)

  /** `arr.shape` of a three-dimensional image array. */
  datatype Shape = Shape(height: nat, width: nat, depth: nat)

  /** A decoded image: its shape and its rows of pixels. */
  datatype Picture = Picture(shape: Shape, rows: seq<seq<Pixel>>)

  predicate WellShaped(img: Picture) {
    && |img.rows| == img.shape.height
    && forall x :: 0 <= x < |img.rows| ==>
         && |img.rows[x]| == img.shape.width
         && forall y :: 0 <= y < |img.rows[x]| ==> |img.rows[x][y]| == img.shape.depth
  }

  function Keys<V>(entries: seq<(string, V)>): (ks: seq<string>)
    ensures |ks| == |entries| && forall i :: 0 <= i < |entries| ==> ks[i] == entries[i].0
  {
    seq(|entries|, i requires 0 <= i < |entries| => entries[i].0)
  }

  predicate DistinctKeys<V>(entries: seq<(string, V)>) {
    forall i, j :: 0 <= i < j < |entries| ==> entries[i].0 != entries[j].0
  }

  predicate HasKey<V>(entries: seq<(string, V)>, k: string) {
    exists j :: 0 <= j < |entries| && entries[j].0 == k
  }

  /** `d[k]`: the variants of the first entry holding key `k`, or KeyError. */
  function Lookup(palette: Palette, k: string): Result<seq<Pixel>> {
    if palette == [] then Err(KeyError)
    else if palette[0].0 == k then Ok(palette[0].1)
    else Lookup(palette[1..], k)
  }

  /** The lookup succeeds exactly when the key is present, and then yields
      the variants of the first entry holding it. */
  lemma {:induction false} LookupSpec(palette: Palette, k: string)
    ensures Lookup(palette, k).Ok? <==> HasKey(palette, k)
    ensures Lookup(palette, k).Err? ==> Lookup(palette, k).error == KeyError
    ensures Lookup(palette, k).Ok? ==> exists j ::
      0 <= j < |palette| && palette[j] == (k, Lookup(palette, k).value) && forall i :: 0 <= i < j ==> palette[i].0 != k
  {
    if palette != [] && palette[0].0 != k {
      var rest := palette[1..];
      LookupSpec(rest, k);
      assert forall j :: 1 <= j < |palette| ==> palette[j] == rest[j - 1];
      if Lookup(rest, k).Ok? {
        var j :| 0 <= j < |rest| && rest[j] == (k, Lookup(rest, k).value) &&
          forall i :: 0 <= i < j ==> rest[i].0 != k;
        assert palette[j + 1] == (k, Lookup(rest, k).value);
      }
    }
  }

  /** A result that already holds `xs` in front of whatever `r` holds. */
  function Prepended<T>(xs: seq<T>, r: Result<seq<T>>): Result<seq<T>> {
    if r.Ok? then Ok(xs + r.value) else r
  }

  lemma PrependedNothing<T>(r: Result<seq<T>>)
    ensures Prepended([], r) == r
  {
    if r.Ok? {
      assert [] + r.value == r.value;
    }
  }

  lemma PrependedTwice<T>(xs: seq<T>, ys: seq<T>, r: Result<seq<T>>)
    ensures Prepended(xs, Prepended(ys, r)) == Prepended(xs + ys, r)
  {
    if r.Ok? {
      assert xs + (ys + r.value) == (xs + ys) + r.value;
    }
  }

  /** A Python loop that applies `f` to each element in turn and stops at
      the first exception. */
  function MapAll<A, B>(f: A -> Result<B>, xs: seq<A>): Result<seq<B>> {
    if xs == [] then Ok([])
    else
      match f(xs[0])
      case Err(e) => Err(e)
      case Ok(y) => Prepended([y], MapAll(f, xs[1..]))
  }

  /** The loop succeeds exactly when `f` succeeds on every element, and then
      holds `f`'s result for each element in order; otherwise it fails with
      the exception of the first element `f` fails on. */
  lemma {:induction false} MapAllSpec<A, B>(f: A -> Result<B>, xs: seq<A>)
    ensures MapAll(f, xs).Ok? <==> forall i :: 0 <= i < |xs| ==> f(xs[i]).Ok?
    ensures MapAll(f, xs).Ok? ==>
      |MapAll(f, xs).value| == |xs| && forall i :: 0 <= i < |xs| ==> f(xs[i]) == Ok(MapAll(f, xs).value[i])
    ensures MapAll(f, xs).Err? ==>
      exists i :: 0 <= i < |xs| && f(xs[i]) == Err(MapAll(f, xs).error) &&
        forall j :: 0 <= j < i ==> f(xs[j]).Ok?
  {
    if xs != [] {
      var rest := xs[1..];
      MapAllSpec(f, rest);
      assert forall i :: 1 <= i < |xs| ==> xs[i] == rest[i - 1];
      match f(xs[0])
      case Err(e) =>
      case Ok(y) =>
        match MapAll(f, rest)
        case Err(e) =>
          var i :| 0 <= i < |rest| && f(rest[i]) == Err(e) && forall j :: 0 <= j < i ==> f(rest[j]).Ok?;
          assert f(xs[i + 1]) == Err(e);
        case Ok(ys) =>
    }
  }

  // ---------------------------------------------------------------------
  // getindex

  /** `getindex(inp, arr)` as an expression. */
  function IndexOf(inp: Pixel, arr: seq<Pixel>): int {
    if arr == [] then -1
    else if arr[0] == inp then 0
    else
      var k := IndexOf(inp, arr[1..]);
      if k == -1 then -1 else k + 1
  }

  /** `getindex` returns the first position of `inp` in `arr`, or -1 when
      there is none. */
  lemma {:induction false} IndexOfSpec(inp: Pixel, arr: seq<Pixel>)
    ensures -1 <= IndexOf(inp, arr) < |arr|
    ensures IndexOf(inp, arr) == -1 <==> inp !in arr
    ensures IndexOf(inp, arr) >= 0 ==> arr[IndexOf(inp, arr)] == inp && inp !in arr[..IndexOf(inp, arr)]
  {
    if arr != [] && arr[0] != inp {
      IndexOfSpec(inp, arr[1..]);
      assert arr == [arr[0]] + arr[1..];
      var k := IndexOf(inp, arr[1..]);
      if k != -1 {
        assert arr[..k + 1] == [arr[0]] + arr[1..][..k];
      }
    }
  }

  /** The linear scan of `getindex`, returning at the first match. */
  method GetIndex(inp: Pixel, arr: seq<Pixel>) returns (r: int)
    ensures r == IndexOf(inp, arr)
  {
    for i := 0 to |arr|
      invariant inp !in arr[..i]
    {
      if arr[i] == inp {
        IndexOfFirst(inp, arr, i);
        return i;
      }
      assert arr[..i + 1] == arr[..i] + [arr[i]];
    }
    assert arr[..|arr|] == arr;
    IndexOfSpec(inp, arr);
    return -1;
  }

  /** The first position is unique: it is what `IndexOf` computes. */
  lemma IndexOfFirst(inp: Pixel, arr: seq<Pixel>, i: nat)
    requires i < |arr| && arr[i] == inp && inp !in arr[..i]
    ensures IndexOf(inp, arr) == i
  {
    IndexOfSpec(inp, arr);
  }

  // ---------------------------------------------------------------------
  // get_config_key

  function Min(a: int, b: int): int {
    if a <= b then a else b
  }

  /** `all(val[i] == v[i] for i in range(3))`, from index `i` on: it stops
      at the first mismatch, and an index past the end of either pixel
      raises IndexError. */
  function ChannelsMatch(val: Pixel, v: Pixel, i: nat): Result<bool>
    requires i <= 3 && i <= |val| && i <= |v|
    decreases 3 - i
  {
    if i == 3 then Ok(true)
    else if i == |val| || i == |v| then Err(IndexError)
    else if val[i] != v[i] then Ok(false)
    else ChannelsMatch(val, v, i + 1)
  }

  /** With `m` the number of channels both pixels have, capped at 3, the
      test raises IndexError exactly when `m < 3` and the pixels agree below
      `m`, and holds exactly when both have three channels that agree. */
  lemma {:induction false} ChannelsMatchSpec(val: Pixel, v: Pixel, i: nat)
    requires i <= 3 && i <= |val| && i <= |v|
    ensures ChannelsMatch(val, v, i).Ok? || ChannelsMatch(val, v, i) == Err(IndexError)
    ensures var m := Min(Min(|val|, |v|), 3);
      ChannelsMatch(val, v, i) == Err(IndexError) <==> m < 3 && val[i..m] == v[i..m]
    ensures ChannelsMatch(val, v, i) == Ok(true) <==> |val| >= 3 && |v| >= 3 && val[i..3] == v[i..3]
    decreases 3 - i
  {
    if i < 3 && i < |val| && i < |v| {
      SliceAgreeStep(val, v, i, Min(Min(|val|, |v|), 3));
      if |val| >= 3 && |v| >= 3 {
        SliceAgreeStep(val, v, i, 3);
      }
      if val[i] == v[i] {
        ChannelsMatchSpec(val, v, i + 1);
      }
    }
  }

  /** Two pixels agree on channels `i..m` exactly when they agree on
      channel `i` and on `i + 1..m`. */
  lemma SliceAgreeStep(a: Pixel, b: Pixel, i: nat, m: nat)
    requires i < m <= |a| && m <= |b|
    ensures a[i..m] == b[i..m] <==> a[i] == b[i] && a[i + 1..m] == b[i + 1..m]
  {
    assert a[i..m] == [a[i]] + a[i + 1..m];
    assert b[i..m] == [b[i]] + b[i + 1..m];
  }

  /** Channels 0..2 of both pixels exist and agree. */
  predicate Agree3(val: Pixel, v: Pixel) {
    |val| >= 3 && |v| >= 3 && val[..3] == v[..3]
  }

  /** A palette entry's variants select `val`: there are two, and both
      agree with `val` on channels 0..2. */
  predicate Qualifies(val: Pixel, variants: seq<Pixel>) {
    |variants| == 2 && Agree3(val, variants[0]) && Agree3(val, variants[1])
  }

  /** One iteration of `get_config_key`'s loop: unpack the entry's two
      variants, then test the first and, only when it agrees, the second. */
  function KeyQualifies(val: Pixel, variants: seq<Pixel>): Result<bool> {
    if |variants| != 2 then Err(UnpackError)
    else
      match ChannelsMatch(val, variants[0], 0)
      case Err(e) => Err(e)
      case Ok(first) => if first then ChannelsMatch(val, variants[1], 0) else Ok(false)
  }

  /** An entry selects `val` exactly when both its variants agree with
      `val` on channels 0..2; a malformed entry raises the unpacking error,
      and the only other exception is IndexError. */
  lemma KeyQualifiesSpec(val: Pixel, variants: seq<Pixel>)
    ensures |variants| != 2 ==> KeyQualifies(val, variants) == Err(UnpackError)
    ensures KeyQualifies(val, variants) == Ok(true) <==> Qualifies(val, variants)
    ensures KeyQualifies(val, variants).Err? && |variants| == 2 ==> KeyQualifies(val, variants).error == IndexError
  {
    if |variants| == 2 {
      ChannelsMatchSpec(val, variants[0], 0);
      ChannelsMatchSpec(val, variants[1], 0);
    }
  }

  /** The entry at `j` is the first of the palette that selects `val`. */
  predicate FirstQualifying(palette: Palette, val: Pixel, j: int) {
    && 0 <= j < |palette|
    && Qualifies(val, palette[j].1)
    && forall i :: 0 <= i < j ==> !Qualifies(val, palette[i].1)
  }

  /** `could_keys` after the loop of `get_config_key`, or the first
      exception an entry raises. */
  function CouldKeys(palette: Palette, val: Pixel): Result<seq<string>> {
    if palette == [] then Ok([])
    else
      match KeyQualifies(val, palette[0].1)
      case Err(e) => Err(e)
      case Ok(q) => Prepended(if q then [palette[0].0] else [], CouldKeys(palette[1..], val))
  }

  /** `could_keys` holds exactly the keys whose variants select `val`, the
      first of them being the key of the first such entry; the loop fails
      exactly when some entry raises, with the first entry's exception. */
  lemma {:induction false} CouldKeysSpec(palette: Palette, val: Pixel)
    ensures CouldKeys(palette, val).Ok? <==> forall j :: 0 <= j < |palette| ==> KeyQualifies(val, palette[j].1).Ok?
    ensures CouldKeys(palette, val).Err? ==>
      exists j :: 0 <= j < |palette| && KeyQualifies(val, palette[j].1) == Err(CouldKeys(palette, val).error) &&
        forall i :: 0 <= i < j ==> KeyQualifies(val, palette[i].1).Ok?
    ensures CouldKeys(palette, val).Ok? ==> forall k :: k in CouldKeys(palette, val).value <==>
      exists j :: 0 <= j < |palette| && palette[j].0 == k && Qualifies(val, palette[j].1)
    ensures CouldKeys(palette, val).Ok? && CouldKeys(palette, val).value != [] ==>
      exists j :: FirstQualifying(palette, val, j) && palette[j].0 == CouldKeys(palette, val).value[0]
  {
    if palette != [] {
      var rest := palette[1..];
      CouldKeysSpec(rest, val);
      KeyQualifiesSpec(val, palette[0].1);
      assert forall j :: 1 <= j < |palette| ==> palette[j] == rest[j - 1];
      match KeyQualifies(val, palette[0].1)
      case Err(e) =>
      case Ok(q) =>
        match CouldKeys(rest, val)
        case Err(e) =>
          var j :| 0 <= j < |rest| && KeyQualifies(val, rest[j].1) == Err(e) &&
            forall i :: 0 <= i < j ==> KeyQualifies(val, rest[i].1).Ok?;
          assert KeyQualifies(val, palette[j + 1].1) == Err(e);
        case Ok(ks) =>
          if q {
            assert FirstQualifying(palette, val, 0);
          } else if ks != [] {
            var j :| FirstQualifying(rest, val, j) && rest[j].0 == ks[0];
            assert FirstQualifying(palette, val, j + 1);
          }
    }
  }

  /** `get_config_key(dict_o, val)` as an expression over `could_keys`:
      `could_keys[0]` raises IndexError when it is empty, so the `None`
      alternative of the source's last line is never produced. */
  function ConfigKey(palette: Palette, val: Pixel): Result<Classification> {
    match CouldKeys(palette, val)
    case Err(e) => Err(e)
    case Ok(ks) =>
      if ks == [] then Err(IndexError)
      else
        match Lookup(palette, ks[0])
        case Err(e) => Err(e)
        case Ok(variants) => Ok((ks[0], IndexOf(val, variants)))
  }

  /** `get_config_key` returns the first key of the palette whose two
      variants both agree with `val` on channels 0..2, with the position of
      `val` among that key's variants; when every entry is well formed and
      none qualifies it raises IndexError. */
  lemma ConfigKeySpec(palette: Palette, val: Pixel)
    ensures ConfigKey(palette, val).Ok? <==>
      (forall j :: 0 <= j < |palette| ==> KeyQualifies(val, palette[j].1).Ok?) &&
      exists j :: 0 <= j < |palette| && Qualifies(val, palette[j].1)
    ensures (forall j :: 0 <= j < |palette| ==> KeyQualifies(val, palette[j].1) == Ok(false)) ==>
      ConfigKey(palette, val) == Err(IndexError)
    ensures ConfigKey(palette, val).Ok? ==>
      exists j :: FirstQualifying(palette, val, j) && palette[j].0 == ConfigKey(palette, val).value.0 &&
        (DistinctKeys(palette) ==> ConfigKey(palette, val).value.1 == IndexOf(val, palette[j].1))
  {
    CouldKeysSpec(palette, val);
    var r := ConfigKey(palette, val);
    if CouldKeys(palette, val).Ok? && CouldKeys(palette, val).value != [] {
      LookupSpec(palette, CouldKeys(palette, val).value[0]);
    }
    if r.Ok? {
      var ks := CouldKeys(palette, val).value;
      var j :| FirstQualifying(palette, val, j) && palette[j].0 == ks[0];
      assert ks[0] in ks;
      if DistinctKeys(palette) {
        var variants := Lookup(palette, ks[0]).value;
        var j' :| 0 <= j' < |palette| && palette[j'] == (ks[0], variants) &&
          forall i :: 0 <= i < j' ==> palette[i].0 != ks[0];
        assert j' == j;
      }
    } else if CouldKeys(palette, val).Ok? {
      var ks := CouldKeys(palette, val).value;
      forall j | 0 <= j < |palette|
        ensures !Qualifies(val, palette[j].1)
      {
        assert palette[j].0 !in ks;
      }
    }
  }

  /** The loop of `get_config_key`, collecting `could_keys`. */
  method GetConfigKey(palette: Palette, val: Pixel) returns (r: Result<Classification>)
    ensures r == ConfigKey(palette, val)
  {
    var couldKeys: seq<string> := [];
    assert palette[0..] == palette;
    PrependedNothing(CouldKeys(palette, val));
    for i := 0 to |palette|
      invariant CouldKeys(palette, val) == Prepended(couldKeys, CouldKeys(palette[i..], val))
    {
      assert palette[i..][1..] == palette[i + 1..];
      var (k, variants) := palette[i];
      if |variants| != 2 {
        return Err(UnpackError);
      }
      var first := ChannelsMatch(val, variants[0], 0);
      if first.Err? {
        return Err(first.error);
      }
      var selected := false;
      if first.value {
        var second := ChannelsMatch(val, variants[1], 0);
        if second.Err? {
          return Err(second.error);
        }
        selected := second.value;
      }
      PrependedTwice(couldKeys, if selected then [k] else [], CouldKeys(palette[i + 1..], val));
      if selected {
        couldKeys := couldKeys + [k];
      } else {
        assert couldKeys + [] == couldKeys;
      }
    }
    assert palette[|palette|..] == [];
    assert couldKeys + [] == couldKeys;
    if couldKeys == [] {
      return Err(IndexError);
    }
    var variants := Lookup(palette, couldKeys[0]);
    if variants.Err? {
      return Err(variants.error);
    }
    var idx := GetIndex(val, variants.value);
    return Ok((couldKeys[0], idx));
  }

  /** A palette as `convert_config` builds it: two variants per key, each
      three bytes. */
  predicate WellFormedPalette(palette: Palette) {
    forall j :: 0 <= j < |palette| ==>
      |palette[j].1| == 2 && IsRgb(palette[j].1[0]) && IsRgb(palette[j].1[1])
  }

  predicate IsRgb(px: Pixel) {
    |px| == 3 && forall k :: 0 <= k < 3 ==> 0 <= px[k] < 0x100
  }

  /** On a converted palette and a three-channel value, classification
      fails only with IndexError, succeeds exactly when some key has `val`
      as both of its variants, and then always reports variant 0. */
  lemma ConfigKeyOnConvertedPalette(palette: Palette, val: Pixel)
    requires WellFormedPalette(palette) && DistinctKeys(palette) && |val| == 3
    ensures ConfigKey(palette, val).Ok? <==>
      exists j :: 0 <= j < |palette| && palette[j].1 == [val, val]
    ensures ConfigKey(palette, val).Err? ==> ConfigKey(palette, val).error == IndexError
    ensures ConfigKey(palette, val).Ok? ==> ConfigKey(palette, val).value.1 == 0
  {
    ConfigKeySpec(palette, val);
    assert val[..3] == val;
    forall j | 0 <= j < |palette|
      ensures KeyQualifies(val, palette[j].1).Ok?
      ensures Qualifies(val, palette[j].1) <==> palette[j].1 == [val, val]
    {
      var vs := palette[j].1;
      assert vs[0][..3] == vs[0] && vs[1][..3] == vs[1];
      assert vs == [vs[0], vs[1]];
    }
    var r := ConfigKey(palette, val);
    if r.Ok? {
      var j :| FirstQualifying(palette, val, j) && palette[j].0 == r.value.0
        && r.value.1 == IndexOf(val, palette[j].1);
      assert palette[j].1[0] == val;
    }
  }

  /** With fewer than three channels (what `[:-1]` leaves of an RGB
      pixel) classification against a converted palette always raises
      IndexError. */
  lemma ShortPixelFails(palette: Palette, val: Pixel)
    requires WellFormedPalette(palette) && |val| < 3
    ensures ConfigKey(palette, val) == Err(IndexError)
  {
    CouldKeysSpec(palette, val);
    match CouldKeys(palette, val)
    case Err(e) =>
      var j :| 0 <= j < |palette| && KeyQualifies(val, palette[j].1) == Err(e);
    case Ok(ks) =>
  }

  /** Agreeing with one variant is not enough: both must agree. */
  lemma BothVariantsRequired()
    ensures ConfigKey([("k", [[1, 2, 3], [4, 5, 6]])], [1, 2, 3]) == Err(IndexError)
    ensures ConfigKey([("k", [[1, 2, 3], [1, 2, 3]])], [1, 2, 3]) == Ok(("k", 0))
  {
    var v: Pixel := [1, 2, 3];
    var p1: Palette := [("k", [[1, 2, 3], [4, 5, 6]])];
    assert !Agree3(v, p1[0].1[1]) by { assert p1[0].1[1][..3][0] == 4; }
    var p2: Palette := [("k", [[1, 2, 3], [1, 2, 3]])];
    assert p2[0].1[0] == v && p2[0].1[1] == v;
    assert v[..3] == v;
    assert Qualifies(v, p2[0].1);
    assert IndexOf(v, p2[0].1) == 0;
  }

  // ---------------------------------------------------------------------
  // convert_config and hex_to_rgb

  /** `s[1:]`: everything after the first character. */
  function Tail(s: string): string {
    if s == [] then [] else s[1..]
  }

  /** Bits 16-23, 8-15 and 0-7 of `n` are those of `n mod 2^32`. */
  lemma LowBytes(n: nat)
    ensures (n / 0x1_0000) % 0x100 == Red(Masked(n))
    ensures (n / 0x100) % 0x100 == Green(Masked(n))
    ensures n % 0x100 == Blue(Masked(n))
  {
    var q, m := n / 0x1_0000_0000, n % 0x1_0000_0000;
    assert n == q * 0x1_0000_0000 + m;
    ShiftDown(q * 0x1_0000, m, 0x1_0000);
    ShiftDown(q * 0x100_0000, m, 0x100);
    ByteAbove(q * 0x100, m / 0x1_0000);
    ByteAbove(q * 0x1_0000, m / 0x100);
    ByteAbove(q * 0x100_0000, m);
  }

  /** Shifting right by the width of a low part leaves the high part whole. */
  lemma ShiftDown(h: nat, m: nat, d: nat)
    requires d == 0x100 || d == 0x1_0000
    ensures (h * d + m) / d == h + m / d
  {
    assert h * d + m == (h + m / d) * d + m % d;
  }

  /** Adding a multiple of 256 does not change the low byte. */
  lemma ByteAbove(h: nat, t: nat)
    ensures (h * 0x100 + t) % 0x100 == t % 0x100
  {
    assert h * 0x100 + t == (h + t / 0x100) * 0x100 + t % 0x100;
  }

  /** `hex_to_rgb(string)`: the digits after the first character read in
      base 16 and cut to their red, green and blue bytes; a string `int`
      rejects raises. */
  function HexToRgb(s: string): (r: Result<Pixel>)
    ensures r.Ok? <==> IntBase16(Tail(s)).Some?
    ensures r.Err? ==> r.error == IntParseError
    ensures r.Ok? ==> IsRgb(r.value)
  {
    match IntBase16(Tail(s))
    case None => Err(IntParseError)
    case Some(n) => Ok([(n / 0x1_0000) % 0x100, (n / 0x100) % 0x100, n % 0x100])
  }

  /** The three bytes are those `RGBAColor(n).toarray_noalpha` gives for
      the value `n` read. */
  lemma HexToRgbBytes(s: string)
    requires IntBase16(Tail(s)).Some?
    ensures HexToRgb(s) == Ok(ToArrayNoAlpha(Masked(IntBase16(Tail(s)).value)))
  {
    var n := IntBase16(Tail(s)).value;
    var w := Masked(n);
    LowBytes(n);
    assert ToArrayNoAlpha(w) == [Red(w), Green(w), Blue(w)];
  }

  /** On a well-formed colour string the palette bytes are those of
      `RGBAColor.from_hex_color(s).toarray_noalpha`. */
  lemma HexToRgbAgreesWithColor(s: string)
    requires HexColorMatch(s)
    ensures ParseHexColor(s).Ok?
    ensures HexToRgb(s) == Ok(ToArrayNoAlpha(ParseHexColor(s).value))
  {
    HexColorPayload(s);
    assert Tail(s) == s[1..];
    HexToRgbBytes(s);
  }

  /** One iteration of `convert_config`: unpack the two hex strings and
      convert the first, then the second. */
  function ConvertEntry(entry: (string, seq<string>)): (r: Result<(string, seq<Pixel>)>)
    ensures |entry.1| != 2 ==> r == Err(UnpackError)
    ensures r.Ok? <==> |entry.1| == 2 && HexToRgb(entry.1[0]).Ok? && HexToRgb(entry.1[1]).Ok?
    ensures r.Err? && |entry.1| == 2 ==> r.error == IntParseError
    ensures r.Ok? ==>
      r.value.0 == entry.0 && |r.value.1| == 2 && IsRgb(r.value.1[0]) && IsRgb(r.value.1[1])
    ensures r.Ok? ==> r.value.1 == [HexToRgb(entry.1[0]).value, HexToRgb(entry.1[1]).value]
  {
    var (key, hexes) := entry;
    if |hexes| != 2 then Err(UnpackError)
    else
      match HexToRgb(hexes[0])
      case Err(e) => Err(e)
      case Ok(c1) =>
        match HexToRgb(hexes[1])
        case Err(e) => Err(e)
        case Ok(c2) => Ok((key, [c1, c2]))
  }

  /** `convert_config(config)`: every entry converted, in order, or the
      first exception an entry raises. */
  function Converted(config: RawConfig): Result<Palette> {
    MapAll(ConvertEntry, config)
  }

  /** A converted configuration keeps exactly the keys, in order, and is a
      well-formed palette whose colours are the conversions of each key's
      two hex strings; it keeps distinct keys distinct. */
  lemma ConvertedPalette(config: RawConfig)
    requires Converted(config).Ok?
    ensures Keys(Converted(config).value) == Keys(config)
    ensures WellFormedPalette(Converted(config).value)
    ensures DistinctKeys(config) ==> DistinctKeys(Converted(config).value)
    ensures forall i :: 0 <= i < |config| ==>
      && |config[i].1| == 2 && HexToRgb(config[i].1[0]).Ok? && HexToRgb(config[i].1[1]).Ok?
      && Converted(config).value[i].1 == [HexToRgb(config[i].1[0]).value, HexToRgb(config[i].1[1]).value]
  {
    MapAllSpec(ConvertEntry, config);
    var p := Converted(config).value;
    forall i | 0 <= i < |config|
      ensures p[i].0 == config[i].0
      ensures |p[i].1| == 2 && IsRgb(p[i].1[0]) && IsRgb(p[i].1[1])
      ensures |config[i].1| == 2 && HexToRgb(config[i].1[0]).Ok? && HexToRgb(config[i].1[1]).Ok?
      ensures p[i].1 == [HexToRgb(config[i].1[0]).value, HexToRgb(config[i].1[1]).value]
    {
      assert ConvertEntry(config[i]).Ok?;
    }
  }

  /** The loop of `convert_config`, filling `new_dict`; the keys of a dict
      are distinct, so each assignment appends an entry. */
  method ConvertConfig(config: RawConfig) returns (r: Result<Palette>)
    ensures r == Converted(config)
  {
    var newDict: Palette := [];
    assert config[0..] == config;
    PrependedNothing(Converted(config));
    for i := 0 to |config|
      invariant Converted(config) == Prepended(newDict, Converted(config[i..]))
    {
      assert config[i..][1..] == config[i + 1..];
      var (key, hexes) := config[i];
      if |hexes| != 2 {
        return Err(UnpackError);
      }
      var c1 := HexToRgb(hexes[0]);
      if c1.Err? {
        return Err(c1.error);
      }
      var c2 := HexToRgb(hexes[1]);
      if c2.Err? {
        return Err(c2.error);
      }
      PrependedTwice(newDict, [(key, [c1.value, c2.value])], Converted(config[i + 1..]));
      newDict := newDict + [(key, [c1.value, c2.value])];
    }
    assert config[|config|..] == [] && newDict + [] == newDict;
    return Ok(newDict);
  }

  // ---------------------------------------------------------------------
  // load_pattern

  /** `px[:-1]`: the pixel without its last channel. */
  function DropLast(px: Pixel): Pixel {
    if px == [] then [] else px[..|px| - 1]
  }

  /** The pixels of the rows one after another. */
  function RowMajor(rows: seq<seq<Pixel>>): seq<Pixel> {
    if rows == [] then [] else rows[0] + RowMajor(rows[1..])
  }

  lemma MulStep(x: int, w: int)
    ensures x * w + w == (x + 1) * w
  {
  }

  /** The position of pixel `(x, y)` among rows of width `w` read one after
      another. */
  function Offset(w: nat, x: nat, y: nat): nat {
    x * w + y
  }

  /** Pixels of an `h` by `w` grid have positions below `h * w`. */
  lemma OffsetBound(h: nat, w: nat, x: nat, y: nat)
    requires x < h && y < w
    ensures Offset(w, x, y) < h * w
  {
    MulStep(x, w);
    assert (x + 1) * w <= h * w;
  }

  /** Rows of width `w` flatten to `|rows| * w` pixels. */
  lemma {:induction false} RowMajorLength(rows: seq<seq<Pixel>>, w: nat)
    requires forall x :: 0 <= x < |rows| ==> |rows[x]| == w
    ensures |RowMajor(rows)| == |rows| * w
  {
    if rows != [] {
      RowMajorLength(rows[1..], w);
      MulStep(|rows| - 1, w);
    }
  }

  /** Pixel `(x, y)` of rows of width `w` is element `Offset(w, x, y)`. */
  lemma {:induction false} RowMajorAt(rows: seq<seq<Pixel>>, w: nat, x: nat, y: nat)
    requires forall x :: 0 <= x < |rows| ==> |rows[x]| == w
    requires x < |rows| && y < w
    ensures Offset(w, x, y) < |RowMajor(rows)| && RowMajor(rows)[Offset(w, x, y)] == rows[x][y]
  {
    var rest := rows[1..];
    RowMajorLength(rest, w);
    assert RowMajor(rows) == rows[0] + RowMajor(rest);
    if x > 0 {
      RowMajorAt(rest, w, x - 1, y);
      MulStep(x - 1, w);
    }
  }

  /** Every element of the flattened rows is some pixel `(x, y)`. */
  lemma {:induction false} RowMajorCovers(rows: seq<seq<Pixel>>, w: nat, i: nat)
    requires forall x :: 0 <= x < |rows| ==> |rows[x]| == w
    requires i < |RowMajor(rows)|
    ensures exists x, y :: 0 <= x < |rows| && 0 <= y < w && RowMajor(rows)[i] == rows[x][y]
  {
    var rest := rows[1..];
    assert RowMajor(rows) == rows[0] + RowMajor(rest);
    if i < w {
      assert RowMajor(rows)[i] == rows[0][i];
    } else {
      RowMajorCovers(rest, w, i - w);
      var x, y :| 0 <= x < |rest| && 0 <= y < w && RowMajor(rest)[i - w] == rest[x][y];
      assert RowMajor(rows)[i] == rows[x + 1][y];
    }
  }

  /** Every pixel, without its last channel, classified in order, or the
      first exception. */
  function ClassifyAll(palette: Palette, pixels: seq<Pixel>): Result<seq<Classification>> {
    MapAll(Classifier(palette), pixels)
  }

  /** The loop body of `load_pattern`: `get_config_key(config, pixel[:-1])`. */
  function Classifier(palette: Palette): Pixel -> Result<Classification> {
    px => ConfigKey(palette, DropLast(px))
  }

  /** What `load_pattern` returns: the classifications of all pixels in
      row-major order paired with the shape, whatever `get_shape` says. */
  function Decode(palette: Palette, img: Picture): Result<(seq<Classification>, Shape)> {
    match ClassifyAll(palette, RowMajor(img.rows))
    case Err(e) => Err(e)
    case Ok(cs) => Ok((cs, img.shape))
  }

  /** The pattern has one element per pixel, element `Offset(W, x, y)` being the
      classification of pixel `(x, y)` without its last channel; it fails
      exactly when some pixel's classification does. */
  lemma DecodeLayout(palette: Palette, img: Picture)
    requires WellShaped(img)
    ensures Decode(palette, img).Ok? <==>
      forall x, y :: 0 <= x < img.shape.height && 0 <= y < img.shape.width ==>
        ConfigKey(palette, DropLast(img.rows[x][y])).Ok?
    ensures Decode(palette, img).Ok? ==>
      && Decode(palette, img).value.1 == img.shape
      && |Decode(palette, img).value.0| == img.shape.height * img.shape.width
      && forall x, y :: 0 <= x < img.shape.height && 0 <= y < img.shape.width ==>
           && Offset(img.shape.width, x, y) < |Decode(palette, img).value.0|
           && ConfigKey(palette, DropLast(img.rows[x][y])) == Ok(Decode(palette, img).value.0[Offset(img.shape.width, x, y)])
  {
    MapAllRows(Classifier(palette), img.rows, img.shape.width);
  }

  /** A loop applying `f` to every pixel of rows of width `w` in row-major
      order succeeds exactly when `f` succeeds on every pixel, and then
      holds `f`'s result for pixel `(x, y)` at `Offset(w, x, y)`. */
  lemma MapAllRows<B>(f: Pixel -> Result<B>, rows: seq<seq<Pixel>>, w: nat)
    requires forall x :: 0 <= x < |rows| ==> |rows[x]| == w
    ensures MapAll(f, RowMajor(rows)).Ok? <==>
      forall x, y :: 0 <= x < |rows| && 0 <= y < w ==> f(rows[x][y]).Ok?
    ensures MapAll(f, RowMajor(rows)).Ok? ==>
      && |MapAll(f, RowMajor(rows)).value| == |rows| * w
      && forall x, y :: 0 <= x < |rows| && 0 <= y < w ==>
           && Offset(w, x, y) < |MapAll(f, RowMajor(rows)).value|
           && f(rows[x][y]) == Ok(MapAll(f, RowMajor(rows)).value[Offset(w, x, y)])
  {
    var pixels := RowMajor(rows);
    MapAllSpec(f, pixels);
    RowMajorLength(rows, w);
    forall x, y | 0 <= x < |rows| && 0 <= y < w
      ensures Offset(w, x, y) < |pixels| && pixels[Offset(w, x, y)] == rows[x][y]
    {
      RowMajorAt(rows, w, x, y);
    }
    if forall x, y :: 0 <= x < |rows| && 0 <= y < w ==> f(rows[x][y]).Ok? {
      forall i | 0 <= i < |pixels|
        ensures f(pixels[i]).Ok?
      {
        RowMajorCovers(rows, w, i);
      }
    }
  }

  const ExampleDark: Pixel := [0x33, 0x33, 0x33]
  const ExampleLight: Pixel := [0x55, 0x55, 0x55]
  /** `convert_config({'dark': ['#333333', '#333333'], 'light': ['#555555', '#555555']})` */
  const ExamplePalette: Palette := [("dark", [ExampleDark, ExampleDark]), ("light", [ExampleLight, ExampleLight])]

  /** Each example colour selects its own key, with variant 0. */
  lemma ExampleKeys()
    ensures ConfigKey(ExamplePalette, ExampleDark) == Ok(("dark", 0))
    ensures ConfigKey(ExamplePalette, ExampleLight) == Ok(("light", 0))
  {
    var dark, light, palette := ExampleDark, ExampleLight, ExamplePalette;
    assert dark[..3] == dark && light[..3] == light;
    assert !Agree3(light, dark) by { assert light[..3][0] != dark[..3][0]; }
    assert !Agree3(dark, light) by { assert dark[..3][0] != light[..3][0]; }
    assert Qualifies(dark, palette[0].1) && !Qualifies(dark, palette[1].1);
    assert Qualifies(light, palette[1].1) && !Qualifies(light, palette[0].1);
    ConfigKeyOnConvertedPalette(palette, dark);
    ConfigKeySpec(palette, dark);
    ConfigKeyOnConvertedPalette(palette, light);
    ConfigKeySpec(palette, light);
  }

  /** A one-row image of four-channel pixels over the example palette
      decodes to each pixel's key with variant 0. */
  lemma DecodeExample()
    ensures Decode(ExamplePalette, Picture(Shape(1, 2, 4), [[ExampleDark + [0xff], ExampleLight + [0xff]]]))
      == Ok(([("dark", 0), ("light", 0)], Shape(1, 2, 4)))
  {
    ExampleKeys();
    var rgba := [[ExampleDark + [0xff], ExampleLight + [0xff]]];
    assert rgba[1..] == [] && RowMajor(rgba) == rgba[0] + RowMajor([]);
    var pixels := RowMajor(rgba);
    assert pixels == [ExampleDark + [0xff], ExampleLight + [0xff]];
    assert DropLast(pixels[0]) == ExampleDark && DropLast(pixels[1]) == ExampleLight;
    MapAllSpec(Classifier(ExamplePalette), pixels);
    assert Classifier(ExamplePalette)(pixels[0]) == Ok(("dark", 0));
    assert Classifier(ExamplePalette)(pixels[1]) == Ok(("light", 0));
    var cs := ClassifyAll(ExamplePalette, pixels).value;
    assert cs == [("dark", 0), ("light", 0)];
  }

  /** The same image with three-channel pixels: `[:-1]` leaves two
      channels, and the decoding raises IndexError. */
  lemma DecodeShortExample()
    ensures Decode(ExamplePalette, Picture(Shape(1, 2, 3), [[ExampleDark, ExampleLight]])) == Err(IndexError)
  {
    var rgb := [[ExampleDark, ExampleLight]];
    assert rgb[1..] == [] && RowMajor(rgb) == rgb[0] + RowMajor([]);
    assert RowMajor(rgb) == [ExampleDark, ExampleLight];
    ShortPixelFails(ExamplePalette, DropLast(ExampleDark));
    MapAllSpec(Classifier(ExamplePalette), RowMajor(rgb));
  }

  /** Dropping the first of the remaining pixels of a row. */
  lemma SuffixStep(row: seq<Pixel>, y: nat, tail: seq<Pixel>)
    requires y < |row|
    ensures (row[y..] + tail)[0] == row[y] && (row[y..] + tail)[1..] == row[y + 1..] + tail
  {
    assert (row[y..] + tail)[1..] == row[y..][1..] + tail;
  }

  /** `load_pattern(image, config, get_shape)` over the decoded image: the
      nested loops append one classification per pixel. */
  method LoadPattern(img: Picture, palette: Palette, getShape: bool)
    returns (r: Result<(seq<Classification>, Shape)>)
    requires WellShaped(img)
    ensures r == Decode(palette, img)
  {
    var colors: seq<Classification> := [];
    var rows := img.rows;
    assert rows[0..] == rows;
    PrependedNothing(ClassifyAll(palette, RowMajor(rows)));
    for x := 0 to img.shape.height
      invariant ClassifyAll(palette, RowMajor(rows)) == Prepended(colors, ClassifyAll(palette, RowMajor(rows[x..])))
    {
      assert rows[x..][1..] == rows[x + 1..];
      var tail := RowMajor(rows[x + 1..]);
      for y := 0 to img.shape.width
        invariant ClassifyAll(palette, RowMajor(rows)) == Prepended(colors, ClassifyAll(palette, rows[x][y..] + tail))
      {
        var rest := rows[x][y..] + tail;
        SuffixStep(rows[x], y, tail);
        var c := GetConfigKey(palette, DropLast(rows[x][y]));
        if c.Err? {
          return Err(c.error);
        }
        PrependedTwice(colors, [c.value], ClassifyAll(palette, rest[1..]));
        colors := colors + [c.value];
      }
      assert rows[x][img.shape.width..] + tail == tail;
    }
    assert rows[img.shape.height..] == [] && colors + [] == colors;
    return Ok((colors, img.shape));
  }

  // ---------------------------------------------------------------------
  // write_pattern

  function Zeros(n: nat): Pixel {
    seq(n, _ => 0)
  }

  /** numpy's assignment of a row `v` into a pixel of `depth` channels:
      a row of the same length is copied, a row of one value fills every
      channel, anything else raises. */
  function Broadcast(v: seq<int>, depth: nat): (r: Result<Pixel>)
    ensures r.Ok? <==> |v| == depth || |v| == 1
    ensures r.Err? ==> r.error == BroadcastError
    ensures r.Ok? ==>
      |r.value| == depth &&
      forall k :: 0 <= k < depth ==> r.value[k] == (if |v| == depth then v[k] else v[0])
  {
    if |v| == depth then Ok(v)
    else if |v| == 1 then Ok(seq(depth, _ => v[0]))
    else Err(BroadcastError)
  }

  /** The pixel iteration `i` of `write_pattern` writes: the `i`-th pattern
      element (StopIteration past the end), looked up whole in `config`
      (KeyError if absent), with 255 put in front of its values. */
  function CellAt<T(==)>(pattern: seq<T>, config: map<T, seq<int>>, depth: nat, i: nat): Result<Pixel> {
    if i >= |pattern| then Err(StopIteration)
    else if pattern[i] !in config then Err(KeyError)
    else Broadcast([255] + config[pattern[i]], depth)
  }

  /** `write_pattern(path, pattern, config, shape)` up to the saving of the
      grid: a zero grid of the shape whose pixel `(x, y)` is overwritten,
      in row-major order, by the cell of the next pattern element. It
      consumes exactly the first `H * W` elements, and fails with the first
      cell that raises. */
  method WritePattern<T(==)>(pattern: seq<T>, config: map<T, seq<int>>, shape: Shape)
    returns (r: Result<array2<Pixel>>)
    ensures r.Ok? <==> forall i :: 0 <= i < shape.height * shape.width ==> CellAt(pattern, config, shape.depth, i).Ok?
    ensures r.Err? ==>
      exists i :: 0 <= i < shape.height * shape.width &&
        CellAt(pattern, config, shape.depth, i) == Err(r.error) &&
        forall j :: 0 <= j < i ==> CellAt(pattern, config, shape.depth, j).Ok?
    ensures r.Ok? ==> fresh(r.value) && r.value.Length0 == shape.height && r.value.Length1 == shape.width
    ensures r.Ok? ==> forall x, y :: 0 <= x < shape.height && 0 <= y < shape.width ==>
      CellAt(pattern, config, shape.depth, Offset(shape.width, x, y)) == Ok(r.value[x, y])
  {
    var h, w, c := shape.height, shape.width, shape.depth;
    var arr := new Pixel[h, w]((_, _) => Zeros(c));
    var next := 0;  // how far `pattern_it` has advanced
    for x := 0 to h
      invariant next == Offset(w, x, 0)
      invariant forall i :: 0 <= i < next ==> CellAt(pattern, config, c, i).Ok?
      invariant forall x', y' :: 0 <= x' < x && 0 <= y' < w ==>
        CellAt(pattern, config, c, Offset(w, x', y')) == Ok(arr[x', y'])
    {
      for y := 0 to w
        invariant next == Offset(w, x, y)
        invariant forall i :: 0 <= i < next ==> CellAt(pattern, config, c, i).Ok?
        invariant forall x', y' :: 0 <= x' < x && 0 <= y' < w ==>
          CellAt(pattern, config, c, Offset(w, x', y')) == Ok(arr[x', y'])
        invariant forall y' :: 0 <= y' < y ==> CellAt(pattern, config, c, Offset(w, x, y')) == Ok(arr[x, y'])
      {
        if next >= |pattern| {
          OffsetBound(h, w, x, y);
          assert CellAt(pattern, config, c, next) == Err(StopIteration);
          return Err(StopIteration);
        }
        var nextKey := pattern[next];
        if nextKey !in config {
          OffsetBound(h, w, x, y);
          assert CellAt(pattern, config, c, next) == Err(KeyError);
          return Err(KeyError);
        }
        var newArr := [255] + config[nextKey];
        var cell := Broadcast(newArr, c);
        if cell.Err? {
          OffsetBound(h, w, x, y);
          assert CellAt(pattern, config, c, next) == Err(cell.error);
          return Err(cell.error);
        }
        arr[x, y] := cell.value;
        next := next + 1;
      }
      MulStep(x, w);
    }
    return Ok(arr);
  }

  /** A full grid needs at least `H * W` pattern elements; elements past
      those are never read. */
  lemma PatternLength<T>(pattern: seq<T>, extra: seq<T>, config: map<T, seq<int>>, shape: Shape)
    ensures (forall i :: 0 <= i < shape.height * shape.width ==> CellAt(pattern, config, shape.depth, i).Ok?)
      ==> |pattern| >= shape.height * shape.width
    ensures forall i :: 0 <= i < |pattern| ==>
      CellAt(pattern + extra, config, shape.depth, i) == CellAt(pattern, config, shape.depth, i)
  {
    if |pattern| < shape.height * shape.width {
      assert CellAt(pattern, config, shape.depth, |pattern|).Err?;
    }
  }

  /** Painting back a decoded four-channel image with a configuration that
      maps every classification to the colour of its pixels: pixel `(x, y)`
      becomes 255 followed by the first three channels of the original (the
      pixel without its last channel, which is what was classified), so
      the constant 255 lands in channel 0 rather than in the alpha channel. */
  lemma ReplayDecoded(palette: Palette, img: Picture, config: map<Classification, seq<int>>)
    requires WellShaped(img) && img.shape.depth == 4 && Decode(palette, img).Ok?
    requires forall x, y :: 0 <= x < img.shape.height && 0 <= y < img.shape.width ==>
      var k := ConfigKey(palette, DropLast(img.rows[x][y]));
      k.Ok? && k.value in config && config[k.value] == DropLast(img.rows[x][y])
    ensures forall x, y :: 0 <= x < img.shape.height && 0 <= y < img.shape.width ==>
      CellAt(Decode(palette, img).value.0, config, 4, Offset(img.shape.width, x, y))
        == Ok([255] + DropLast(img.rows[x][y]))
  {
    DecodeLayout(palette, img);
    var pattern := Decode(palette, img).value.0;
    var w := img.shape.width;
    forall x, y | 0 <= x < img.shape.height && 0 <= y < w
      ensures CellAt(pattern, config, 4, Offset(w, x, y)) == Ok([255] + DropLast(img.rows[x][y]))
    {
      assert pattern[Offset(w, x, y)] == ConfigKey(palette, DropLast(img.rows[x][y])).value;
    }
  }
}
