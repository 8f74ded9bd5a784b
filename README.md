# qtile-theme-changer core in Dafny

This project models the two source files of qtile-theme-changer that hold its logic:

- **`utils.py`**: the packed RGBA colour `RGBAColor` and the `expected_type` error helper.
- **`__init__.py`**: the pattern transform, made of these functions:
  - `getindex`;
  - `get_config_key`, which classifies a pixel against a palette;
  - `convert_config` with `hex_to_rgb`, which turn a JSON colour configuration into a palette of byte triples;
  - `load_pattern`, which classifies every pixel of an image in row-major order;
  - `write_pattern`, which paints a pattern back into a grid.

## Modules

The project has four modules:

- **`HexStrings`** (`hex.dfy`): the digit arithmetic behind `int(s, 16)`, `hex(n)[2:]` and `str.rjust`.
- **`Python`** (`python.dfy`): exceptions as a `Result` datatype, dynamically typed setter arguments as `PyValue`, and `int(s, 16)`.
- **`Utils`** (`utils.dfy`): the colour, in two forms.
  - The colour is a packed 32-bit `Word`.
  - Its read-only properties are functions of that word.
  - Each setter is a function (`AssignRed`, …) that specifies a method of the class `RGBAColor`. The class keeps the word in a field `v` and updates it in place.
- **`Pattern`** (`pattern.dfy`): the transform.
  - Each loop of the source is a method proved equal to a recursive specification function: `GetIndex`, `GetConfigKey`, `ConvertConfig`, `LoadPattern` (and `Utils.ExpectedType`).
  - `WritePattern` fills a fresh `array2`.
  - What the source promises is proved about the specification functions.

Bit operations on non-negative integers are written arithmetically:

- `(x & 0xff0000) >> 16` is `(x / 0x1_0000) % 0x100`.
- `&= ~mask` subtracts the byte's weight.

A Python dict is the sequence of its entries in insertion order. Lemmas that look a key up assume distinct keys (`DistinctKeys`).

The model follows the code as written:

- `from_hex_color` accepts lower-case digits only. Because of how `$` works in Python's `re.match`, it also accepts a string with one trailing `"\n"`.
- `to_hex_color` prints the whole word, alpha included. The string is longer than seven characters exactly when alpha is not 0.
- `get_config_key` never returns `None`: `could_keys[0]` raises IndexError first. An unmatched pixel therefore makes `load_pattern` raise instead of recording "no match".
- An entry must hold exactly two variants, or unpacking it raises.
- A key qualifies only when both of its variants agree with the pixel on channels 0–2.
- `load_pattern` always returns `(colors, shape)`, whatever `get_shape` says.
- The pixel handed to `get_config_key` is `pixel[:-1]`. On three-channel images that leaves two channels, and classification raises IndexError (`ShortPixelFails`, `DecodeShortExample`).
- `write_pattern` looks up each pattern element whole in its `config` and writes `[255, *config[e]]`. So the constant 255 lands in channel 0 (`ReplayDecoded`).
- `from_array` (`utils.py:45-51`) is indented inconsistently, so the file as written does not import. The model follows the evident intent: a zero colour, then red, green, blue and, for four elements, alpha.

## Model

| member | source | states |
|---|---|---|
| Utils.ExpectedType | utils.py:5-19 | The loop builds exactly the TypeError message `ExpectedTypeMessage` for the received type and the accepted types |
| Utils.ExpectedTwoTypes | utils.py:12-19 | With two accepted types, as every setter passes, the message is "Expected A or B, got instead 'T'" |
| Utils.ExpectedThreeTypes | utils.py:12-19 | With three types the comma follows only the middle name: "Expected A B, or C, got instead 'T'" |
| Utils.Masked | utils.py:23-24 | The stored value is congruent to the argument modulo 2^32, and equals it when it already fits in 32 bits |
| Utils.RGBAColor.constructor | utils.py:23-24 | A new colour holds its argument masked to 32 bits |
| Utils.AlphaSlot | utils.py:147-152 | `alpha` is the byte `a` with `a * 2^24 <= v < (a + 1) * 2^24`: bits 24-31 |
| Utils.RedSlot | utils.py:75-80 | `red` is the byte whose slot, bits 16-23, holds the low 24 bits of the word |
| Utils.GreenSlot | utils.py:99-104 | `green` is the byte whose slot, bits 8-15, holds the low 16 bits of the word |
| Utils.BlueSlot | utils.py:124-129 | `blue` is bits 0-7: the word minus it is a multiple of 256 |
| Utils.PackChannels | utils.py:75-152 | Each of the four getters reads back exactly the byte packed into its slot |
| Utils.Decompose | utils.py:75-152 | The four getters read disjoint bytes (alpha 24-31, red 16-23, green 8-15, blue 0-7) that together make up the whole word |
| Utils.ChannelsDetermine | utils.py:75-152 | Two colours with the same four channels are the same colour |
| Utils.AssignRed | utils.py:82-97 | An int or float is accepted, and the result has the new low byte as red with alpha, green and blue unchanged; any other type raises the two-type TypeError |
| Utils.AssignGreen | utils.py:106-122 | As for red, on bits 8-15 |
| Utils.AssignBlue | utils.py:131-145 | As for red, on bits 0-7 |
| Utils.AssignAlpha | utils.py:153-165 | An int or float sets bits 24-31 and keeps the rest; any other type leaves the colour unchanged without raising |
| Utils.SettersReadBack | utils.py:75-165 | After a setter, its getter reads `val & 0xff` (`int(val * 255) & 0xff` for a float) and the other three getters are unchanged |
| Utils.RGBAColor.SetRed | utils.py:82-97 | The in-place update yields `AssignRed` of the old value; on TypeError the colour is unchanged |
| Utils.RGBAColor.SetGreen | utils.py:106-122 | The in-place update yields `AssignGreen` of the old value; on TypeError the colour is unchanged |
| Utils.RGBAColor.SetBlue | utils.py:131-145 | The in-place update yields `AssignBlue` of the old value; on TypeError the colour is unchanged |
| Utils.RGBAColor.SetAlpha | utils.py:153-165 | The in-place update yields `AssignAlpha` of the old value |
| Python.IntBase16Padded | __init__.py:20 | `int(s, 16)` ignores space, tab, newline, vertical tab, form feed and carriage return around the digits and reads them in base 16 |
| Python.IntBase16Separators | __init__.py:20 | The separators `\x1c`-`\x1f` are not white space to `int()`: `int("\x1c333333", 16)` and `int("333333\x1f", 16)` raise |
| Python.IntBase16Rejects | __init__.py:20 | `int(s, 16)` raises on a string of white space alone and on one holding a character that is neither a hex digit nor white space |
| Utils.HexColorPayload | utils.py:36-39 | On a string the pattern accepts, `int(s[1:], 16)` reads exactly its six digits |
| Utils.HexColorPairs | utils.py:36-39 | On an accepted string the value read is the three digit pairs packed as red, green and blue with alpha 0 |
| Utils.ParseHexColor | utils.py:34-39 | Succeeds exactly on `#` plus six lower-case hex digits (optionally followed by one newline) and yields alpha 0 with the three digit pairs as red, green and blue; anything else raises ValueError with the source's message |
| Utils.RGBAColor.FromHexColor | utils.py:34-39 | Builds a fresh colour holding `ParseHexColor`'s value, or raises its ValueError |
| Utils.HexColorExamples | utils.py:36 | `#1a2b3c` and `#abcdef` plus a newline are accepted; `#ABCDEF`, `333333`, `#abcd` and `#gg0000` are rejected |
| Utils.PaddedHex | utils.py:65 | The zero-padded hex digits read back as the word and are exactly six long when the word is below 2^24 |
| Utils.ToHexColor | utils.py:63-65 | The string is `#` and lower-case digits that read back as the whole word; it has length 7 exactly when alpha is 0, and a longer string has no leading zero, so the digits are fixed |
| Utils.HexColorRoundTrip | utils.py:34-39 | Printing a parsed seven-character colour string gives back the string |
| Utils.ToHexColorRoundTrip | utils.py:63-65 | Parsing a printed colour gives back the colour when alpha is 0, and raises ValueError otherwise |
| Utils.FromArrayValue | utils.py:41-51 | A length other than 3 or 4 raises ValueError; otherwise the result is red, green, blue (and alpha for four elements) from the array's low bytes, or the TypeError of the first of the first three elements that is neither int nor float |
| Utils.RGBAColor.FromArray | utils.py:41-51 | Building through the in-place setters yields a fresh colour holding `FromArrayValue`, or its exception |
| Utils.ToArray | utils.py:56-58 | Four bytes red, green, blue, alpha that pack back into the word |
| Utils.ToArrayNoAlpha | utils.py:59-61 | Three bytes that pack back into the word with alpha cleared |
| Utils.ToRgbaTuple | utils.py:67-69 | A tuple of the four channels that packs back into the word |
| Utils.FromArrayRoundTrip | utils.py:41-58 | `from_array` applied to the Python ints of `toarray` rebuilds the colour |
| Utils.FromArrayNoAlphaRoundTrip | utils.py:41-61 | `from_array` applied to the ints of `toarray_noalpha` rebuilds the colour with alpha 0 |
| HexStrings.Hex | utils.py:65 | `hex(n)[2:]` is non-empty lower-case digits without a leading zero that read back as `n` |
| HexStrings.HexLength | utils.py:65 | `hex(n)[2:]` fits in `k` digits exactly when `n < 16^k` |
| HexStrings.ParseHexInjective | utils.py:65 | Two lower-case digit strings of one length and one value are equal |
| Pattern.IndexOfSpec | __init__.py:5-8 | `getindex` returns the first position of `inp` in `arr`, or -1 exactly when it is absent |
| Pattern.GetIndex | __init__.py:5-8 | The scan that returns at the first match computes `IndexOf` |
| Pattern.IndexOfFirst | __init__.py:5-8 | A match with no earlier match is the position `getindex` returns |
| Pattern.ChannelsMatchSpec | __init__.py:13 | The `all(val[i] == v[i] for i in range(3))` test holds exactly when both pixels have three channels that agree; it raises IndexError exactly when a pixel runs out before a mismatch |
| Pattern.KeyQualifiesSpec | __init__.py:12-13 | An entry that does not hold two variants raises on unpacking; otherwise it selects the pixel exactly when both variants agree with it on channels 0-2, and the only exception is IndexError |
| Pattern.CouldKeysSpec | __init__.py:11-14 | `could_keys` holds exactly the keys whose entries select the pixel, and its first element is the key of the first such entry; the loop fails exactly when an entry raises, with the first raising entry's exception |
| Pattern.LookupSpec | __init__.py:15 | `dict_o[k]` succeeds exactly when the key is present, yields its entry's variants, and otherwise raises KeyError |
| Pattern.ConfigKeySpec | __init__.py:10-15 | `get_config_key` succeeds exactly when no entry raises and some entry selects the pixel; it then returns the first such key and, keys being distinct, the pixel's first position among that key's variants; when every entry is tested without raising and none selects the pixel, it raises IndexError |
| Pattern.GetConfigKey | __init__.py:10-15 | The loop collecting `could_keys`, then indexing and looking up, computes `ConfigKey` |
| Pattern.ConfigKeyOnConvertedPalette | __init__.py:10-15 | On a converted palette and a three-channel pixel, classification succeeds exactly when some key has the pixel as both variants, then always reports variant 0, and otherwise raises IndexError |
| Pattern.ShortPixelFails | __init__.py:13 | A pixel of fewer than three channels makes classification against a converted palette raise IndexError |
| Pattern.BothVariantsRequired | __init__.py:13 | Agreeing with one variant only does not select a key; agreeing with both does |
| Pattern.ExampleKeys | __init__.py:10-15 | In the palette `dark`/`light` of `#333333` and `#555555`, each colour selects its own key with variant 0 |
| Pattern.HexToRgb | __init__.py:18-25 | Succeeds exactly when `int(s[1:], 16)` does, yielding three bytes, and otherwise raises the parse ValueError |
| Pattern.HexToRgbBytes | __init__.py:18-25 | The three bytes are `RGBAColor(n).toarray_noalpha` of the value `n` read |
| Pattern.HexToRgbAgreesWithColor | __init__.py:18-25 | On a well-formed colour string the bytes are those of `RGBAColor.from_hex_color(s).toarray_noalpha` |
| Pattern.LowBytes | __init__.py:21-24 | Bits 0-23 of any non-negative integer are those of its 32-bit mask |
| Pattern.ConvertEntry | __init__.py:27-31 | An entry without two strings raises on unpacking; otherwise it converts exactly when both strings parse, keeps its key and holds `hex_to_rgb` of the first and of the second string, and otherwise raises the parse error |
| Pattern.MapAllSpec | __init__.py:26-31 | A loop applying a step to each element succeeds exactly when every step does, then holds each step's result in order, and otherwise fails with the first failing element's exception |
| Pattern.ConvertedPalette | __init__.py:17-32 | A converted configuration keeps exactly the keys in order, is a well-formed palette of two byte triples per key, gives each key `hex_to_rgb` of its two strings, and keeps distinct keys distinct |
| Pattern.ConvertConfig | __init__.py:17-32 | The loop filling `new_dict` computes `Converted` |
| Pattern.RowMajorLength | __init__.py:39-41 | Rows of width `w` flatten to `height * w` pixels |
| Pattern.RowMajorAt | __init__.py:39-41 | Pixel `(x, y)` is element `x * w + y` of the flattened rows |
| Pattern.RowMajorCovers | __init__.py:39-41 | Every element of the flattened rows is some pixel `(x, y)` |
| Pattern.MapAllRows | __init__.py:39-41 | Classifying every pixel in row-major order succeeds exactly when each pixel's classification does, and puts pixel `(x, y)`'s result at `x * w + y` |
| Pattern.DecodeLayout | __init__.py:34-42 | `load_pattern` returns the shape and one classification per pixel, pixel `(x, y)`'s at `x * W + y`; it fails exactly when some pixel's classification does |
| Pattern.LoadPattern | __init__.py:34-42 | The nested loops appending classifications compute `Decode` |
| Pattern.DecodeExample | __init__.py:34-42 | A one-row image of the two example colours with an alpha channel decodes to `[("dark", 0), ("light", 0)]` |
| Pattern.DecodeShortExample | __init__.py:34-42 | The same image without an alpha channel makes `load_pattern` raise IndexError |
| Pattern.Broadcast | __init__.py:53 | numpy's row assignment copies a row of the pixel's length, fills every channel from a row of length 1, and raises otherwise |
| Pattern.OffsetBound | __init__.py:47-48 | Every pixel of an `H` by `W` grid has a row-major position below `H * W` |
| Pattern.WritePattern | __init__.py:44-53 | A fresh `H` by `W` grid is built exactly when the first `H * W` cells succeed, with pixel `(x, y)` holding cell `x * W + y`; otherwise it fails with the first failing cell's exception |
| Pattern.PatternLength | __init__.py:46-49 | A full grid needs at least `H * W` pattern elements, and elements beyond those are never read |
| Pattern.ReplayDecoded | __init__.py:34-53 | Writing back a decoded four-channel image with a config mapping each classification to its pixel's colour puts 255 followed by the first three channels at every pixel, so 255 lands in channel 0 rather than in alpha |

## Left out

- Image files: `Image.open` (`__init__.py:36-38`) and `Image.fromarray(arr).save` (`__init__.py:54`) are file I/O. Images are in-memory grids of integer pixels, and `image_name` and `image_path` are not modelled.
- numpy element types:
  - The `uint8` cast in `hex_to_rgb` keeps the values unchanged, because they are already bytes.
  - The `float64` grid of `np.zeros` is modelled as integers.
  - Grayscale images, whose pixels are scalars rather than rows, are not modelled.
- `print` (`__init__.py:51`) and the `__main__` block (`__init__.py:57-76`) are console output and a script.
- `__str__` and `__repr__` (`utils.py:27-31`) are representation only.
- Utils.AssignRed, Utils.AssignGreen, Utils.AssignBlue, Utils.AssignAlpha: a float arrives as the value of `int(val * 255)`. Float arithmetic, and the exception `int` raises on NaN or infinity, are not modelled.
- Python.IntBase16: `int(s, 16)` is modelled for ASCII strings of unsigned hex digits with the white space `int()` skips (space, `\t`, `\n`, `\v`, `\f`, `\r`) around them. Signs, a `0x` prefix, underscores and non-ASCII digits or spaces are not modelled.
- Setter argument types: `type(val) == int` rejects `bool` and numpy integer scalars. Such values are `PyOther` with their type name. So the round-trip lemmas are stated for Python ints (`toarray.tolist()`), not for the numpy array itself.
- Utils.ExpectedType: `repr` of the type name is taken to be the name in single quotes, as for every name that holds no quote character.
- Pattern.WritePattern: the element type of the pattern and the keys of `config` are one type `T`, with `config` mapping an element to a list of numbers. Looking an element up in a dict keyed otherwise, such as a palette keyed by name, raises KeyError, the same as a missing key.
