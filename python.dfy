/** The few notions of the Python runtime the colour and pattern code rests
    on: raised exceptions, dynamically typed values handed to a setter, and
    `int(s, 16)`. */
module Python {
  import opened HexStrings

  datatype Option<T> = None | Some(value: T)

  /** A Python expression either yields a value or raises. */
  datatype Result<T> = Ok(value: T) | Err(error: PyError)

  datatype PyError =
    | ValueError(message: string)  // `raise ValueError(message)` in the source
    | UnpackError                  // ValueError from `a, b = xs` when `len(xs) != 2`
    | IntParseError                // ValueError from `int(s, 16)` on a malformed string
    | BroadcastError               // ValueError from numpy: the row does not fit the pixel
    | TypeError(message: string)
    | IndexError
    | KeyError
    | StopIteration

  /** A value assigned to a colour channel, by its Python type. A float
      is carried as `int(val * 255)`, the only thing the setters use it for. */
  datatype PyValue =
    | PyInt(i: int)
    | PyFloat(scaled: int)
    | PyOther(typeName: string)

  /** White space that `int()` skips around the digits of an ASCII string:
      space, `\t`, `\n`, `\v`, `\f` and `\r`. The separators `\x1c`-`\x1f`,
      white space to `str.isspace()`, are not among them. */
  predicate IsSpace(c: char) {
    c == ' ' || 9 <= c as int <= 13
  }

  function TrimStart(s: string): string {
    if s != [] && IsSpace(s[0]) then TrimStart(s[1..]) else s
  }

  function TrimEnd(s: string): string {
    if s != [] && IsSpace(s[|s| - 1]) then TrimEnd(s[..|s| - 1]) else s
  }

  function Strip(s: string): string {
    TrimEnd(TrimStart(s))
  }

  /** `int(s, 16)` on unsigned digit strings: `None` stands for the
      ValueError it raises. */
  function IntBase16(s: string): Option<nat> {
    var t := Strip(s);
    if t != [] && AllHexDigits(t) then Some(ParseHex(t)) else None
  }

  predicate AllSpaces(s: string) {
    forall i :: 0 <= i < |s| ==> IsSpace(s[i])
  }

  /** White space around the digits is ignored: `int(pre + d + post, 16)`
      is the value of the digits `d`. */
  lemma IntBase16Padded(pre: string, d: string, post: string)
    requires AllSpaces(pre) && AllSpaces(post)
    requires d != [] && AllHexDigits(d)
    ensures IntBase16(pre + d + post) == Some(ParseHex(d))
  {
    TrimStartSpaces(pre, d + post);
    assert pre + d + post == pre + (d + post);
    TrimEndSpaces(d, post);
  }

  /** A string of white space alone, or holding a character that is neither
      a hex digit nor white space, raises. */
  lemma IntBase16Rejects(s: string)
    requires AllSpaces(s) || exists i :: 0 <= i < |s| && !IsSpace(s[i]) && !IsHexDigit(s[i])
    ensures IntBase16(s) == None
  {
    var a, b := StripSlice(s);
    forall k | 0 <= k < a
      ensures IsSpace(s[k])
    {
      assert s[..a][k] == s[k];
    }
    forall k | b <= k < |s|
      ensures IsSpace(s[k])
    {
      assert s[b..][k - b] == s[k];
    }
    var t := Strip(s);
    if AllSpaces(s) {
      if t != [] {
        assert t[0] == s[a];
      }
    } else {
      var i :| 0 <= i < |s| && !IsSpace(s[i]) && !IsHexDigit(s[i]);
      assert t[i - a] == s[i];
    }
  }

  /** The file separator `\x1c` is not skipped: `int("\x1c333333", 16)`
      raises, as does a separator after the digits. */
  lemma IntBase16Separators()
    ensures IntBase16("\U{1c}333333") == None
    ensures IntBase16("333333\U{1f}") == None
  {
    assert !IsSpace("\U{1c}333333"[0]) && !IsHexDigit("\U{1c}333333"[0]);
    IntBase16Rejects("\U{1c}333333");
    assert !IsSpace("333333\U{1f}"[6]) && !IsHexDigit("333333\U{1f}"[6]);
    IntBase16Rejects("333333\U{1f}");
  }

  lemma {:induction false} TrimStartSpaces(pre: string, rest: string)
    requires AllSpaces(pre) && (rest == [] || !IsSpace(rest[0]))
    ensures TrimStart(pre + rest) == rest
  {
    if pre != [] {
      assert (pre + rest)[1..] == pre[1..] + rest;
      TrimStartSpaces(pre[1..], rest);
    } else {
      assert pre + rest == rest;
    }
  }

  lemma {:induction false} TrimEndSpaces(body: string, post: string)
    requires AllSpaces(post) && body != [] && !IsSpace(body[|body| - 1])
    ensures TrimEnd(body + post) == body
  {
    if post != [] {
      var n := |post| - 1;
      assert (body + post)[..|body + post| - 1] == body + post[..n];
      TrimEndSpaces(body, post[..n]);
    } else {
      assert body + post == body;
    }
  }

  /** `Strip(s)` is a slice of `s` with only white space around it. */
  lemma StripSlice(s: string) returns (a: nat, b: nat)
    ensures a <= b <= |s| && Strip(s) == s[a..b]
    ensures AllSpaces(s[..a]) && AllSpaces(s[b..])
  {
    a := TrimStartSlice(s);
    var u := TrimStart(s);
    var c := TrimEndSlice(u);
    b := a + c;
    assert u[..c] == s[a..b];
    assert u[c..] == s[b..];
  }

  lemma {:induction false} TrimStartSlice(s: string) returns (a: nat)
    ensures a <= |s| && TrimStart(s) == s[a..] && AllSpaces(s[..a])
  {
    if s != [] && IsSpace(s[0]) {
      var a' := TrimStartSlice(s[1..]);
      a := a' + 1;
      assert s[1..][a'..] == s[a..];
      assert s[..a] == [s[0]] + s[1..][..a'];
    } else {
      a := 0;
    }
  }

  lemma {:induction false} TrimEndSlice(s: string) returns (b: nat)
    ensures b <= |s| && TrimEnd(s) == s[..b] && AllSpaces(s[b..])
  {
    if s != [] && IsSpace(s[|s| - 1]) {
      var init := s[..|s| - 1];
      b := TrimEndSlice(init);
      assert init[..b] == s[..b];
      assert s[b..] == init[b..] + [s[|s| - 1]];
    } else {
      b := |s|;
    }
  }
}