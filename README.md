# QR code generator: URL guard, caption layout and exit codes

The program turns a URL into a QR code image. It can also put a caption
under the code. This project models the parts of `qr_generator.py` whose
behaviour can be stated without the image libraries:

- **`is_plausible_url`** (module `UrlCheck`). This guard is one
  case-insensitive `re.match` of
  `^(https?://)[\w.-]+(?:\.[\w.-]+)+[/\w\-._~:?#[\]@!$&'()*+,;=]*$`.
  The pattern is written out piece by piece as ghost predicates:
  `SchemeLang`, `DotGroups`, `DomainLang`, `AllPath`, `PatternBody`, and
  `PlausibleUrl` for the whole pattern with its `$`. The method
  `MatchBody` checks the pattern without `$` in one left-to-right scan.
  `IsPlausibleUrl` runs it at most twice: on the whole string and, when
  that fails and the string ends in `\n`, on the string without that
  newline. It is proved to accept exactly the strings `PlausibleUrl`
  accepts. Along the way the
  domain part is shown to be a run of domain characters with an inner dot.
  Module `UrlProperties` proves what this guard accepts and rejects.
- **The caption arithmetic of `generate_qr`** (module `CaptionLayout`).
  This covers whether a caption band is added, the canvas size, where the
  QR image and the caption go, and the three-tier text measurement.
- **The exit code of `main`** (module `Cli`). Validation comes first, then
  generation, then the report.

The regex class `\w` is a parameter `w: char -> bool` of the model. `w(c)`
means that `c` matches `\w` under the pattern's flags. No table of Unicode
word characters is built in. Lemmas that need a fact about `\w` require it
explicitly. For example, the newline lemmas require `!w('\n')`.
Strings are sequences of Unicode scalar values. A Python `str` can also
hold lone surrogates, but a surrogate is neither a word character nor in
either character class, so such a string is rejected either way.

Case-insensitive matching of the scheme accepts, for each pattern letter,
the letter itself and its ASCII capital. For `s` it also accepts U+017F
LATIN SMALL LETTER LONG S, which Python's regular-expression engine treats
as a case variant of `s`. The punctuation in the two character classes has
no case variants.

`$` without `re.MULTILINE` matches at the end of the string, or just
before a final newline. `PlausibleUrl` therefore holds when the pattern
body matches the whole string. It also holds when the string ends in `\n`
and the body matches everything before that newline.

`generate_qr` tests `if not caption` (qr_generator.py:84), which treats
`""` like a missing caption. `HasCaption` is false for both, and `Compose`
then returns the QR image unchanged.

## Model

| member | source | states |
|---|---|---|
| `UrlCheck.SchemeLangLength` | qr_generator.py:28 | `https?://` matches only 7 or 8 characters, and no string begins with both `http://` and `https://` in any letter case |
| `UrlCheck.SchemeLength` | qr_generator.py:28 | gives the length of the scheme the string begins with (ignoring case), or none; the scheme it gives matches `https?://`, and it is the only prefix that does |
| `UrlCheck.RunLength` | qr_generator.py:29-30 | gives the length of the longest prefix made only of domain characters (`\w`, `.`, `-`): the prefix is all domain characters, and the next character, if any, is not one |
| `UrlCheck.RunLengthMaximal` | qr_generator.py:29-30 | no prefix of domain characters is longer than `RunLength` |
| `UrlCheck.RunLengthStops` | qr_generator.py:29-30 | the run of domain characters ends no later than the first character that is not one |
| `UrlCheck.RunLengthUnique` | qr_generator.py:29-30 | a prefix of domain characters followed by a non-domain character (or the end) has exactly the length `RunLength` gives |
| `UrlCheck.DotGroupsAllDomain` | qr_generator.py:30 | everything `(?:\.[\w.-]+)+` matches is made of domain characters |
| `UrlCheck.DomainLangIff` | qr_generator.py:29-30 | `[\w.-]+(?:\.[\w.-]+)+` matches a string exactly when it is all domain characters and has a `.` at some index k with 1 <= k <= length-2 |
| `UrlCheck.AfterSchemeIff` | qr_generator.py:29-31 | domain part followed by path part matches exactly when every character is a path character and the maximal run of domain characters has such an inner dot |
| `UrlCheck.AfterSchemeSplit` | qr_generator.py:29-31 | any way of splitting the text after the scheme into a domain part and a path part gives the maximal-run condition |
| `UrlCheck.AfterSchemeMaximal` | qr_generator.py:29-31 | the maximal-run condition gives a split into a domain part and a path part |
| `UrlCheck.PatternBodyIff` | qr_generator.py:27-31 | the pattern without `$` matches exactly when there is a scheme, all text after it is path characters, and the host run after it has an inner dot |
| `UrlCheck.PatternBodyShape` | qr_generator.py:27-31 | any match of scheme, domain part and path part has the direct shape: scheme, all path characters, dotted host run |
| `UrlCheck.ShapePatternBody` | qr_generator.py:27-31 | a string of the direct shape is matched by the pattern without `$` |
| `UrlCheck.ScanVerdict` | qr_generator.py:29-31 | the three facts a scan finds decide the maximal-run condition: where the domain run ends, its first inner dot, and where the path characters end |
| `UrlCheck.MatchBody` | qr_generator.py:27-31 | the one-pass scan returns true exactly when the pattern without `$` matches the string |
| `UrlCheck.IsPlausibleUrl` | qr_generator.py:21-34 | `is_plausible_url` returns true exactly when the whole pattern matches under `re.match`, including `$`'s allowance for one final newline |
| `UrlProperties.BodyHasScheme` | qr_generator.py:28 | a match of the pattern body begins with `http://` or `https://` in some letter case |
| `UrlProperties.BodyPathChars` | qr_generator.py:29-31 | in a match of the pattern body, every character from index 7 on is in the path class |
| `UrlProperties.BodyHasNoNewline` | qr_generator.py:28-31 | if `\w` excludes the newline, a match of the pattern body contains no newline |
| `UrlProperties.AcceptedHasScheme` | qr_generator.py:28-32 | every accepted string begins with `http://` or `https://` in some letter case, so any other string is rejected |
| `UrlProperties.BodyHasDottedHost` | qr_generator.py:29-30 | a match of the pattern body has a host of domain characters right after its scheme, with an inner dot |
| `UrlProperties.AcceptedHasDottedHost` | qr_generator.py:29-30 | every accepted string has, right after its scheme, a host of domain characters holding a `.` with at least one host character before it and one after it |
| `UrlProperties.DotlessRejected` | qr_generator.py:29-30 | a string with no `.` is rejected, whatever `\w` contains |
| `UrlProperties.LocalhostRejected` | qr_generator.py:29-30 | `https://localhost` is rejected |
| `UrlProperties.LeadingDotRejected` | qr_generator.py:29-30 | `https://.com` is rejected |
| `UrlProperties.AcceptedPathChars` | qr_generator.py:31-34 | in an accepted string, every character from index 7 on is in the path class, except a final newline |
| `UrlProperties.ForeignCharRejected` | qr_generator.py:31 | any character outside the path class after the scheme, other than a newline, makes the string rejected |
| `UrlProperties.PercentEncodingRejected` | qr_generator.py:31 | `https://example.com/a%20b` is rejected because the path class has no `%` |
| `UrlProperties.TrailingNewline` | qr_generator.py:31-34 | `s` plus one newline is accepted exactly when the pattern body matches `s`; if `s` does not already end in a newline, adding one changes nothing |
| `UrlProperties.DoubleNewlineRejected` | qr_generator.py:31-34 | a string ending in two newlines is rejected |
| `UrlProperties.InnerNewlineRejected` | qr_generator.py:31-34 | a string with a newline anywhere other than its last position is rejected |
| `UrlProperties.ExampleAccepted` | qr_generator.py:21-34 | `https://example.com/a` is accepted whenever the lower-case letters are word characters, whether or not `/` is one |
| `CaptionLayout.FirstSuccess` | qr_generator.py:112-121 | with an ordered list of strategies, the first one that succeeds decides; if none succeeds, the fallback is used |
| `CaptionLayout.MeasureCaption` | qr_generator.py:112-121 | the caption's size is the first success of three strategies in order: bounding box, `textsize`, 6 pixels per character by 12; measuring never fails |
| `CaptionLayout.CaptionPosition` | qr_generator.py:124-125 | the caption is centred by floor division: the right gap equals the left gap or exceeds it by 1; x is negative exactly when the text is wider than the QR image; the caption is one 16-pixel margin below the image |
| `CaptionLayout.Compose` | qr_generator.py:84-125 | with no caption or an empty one, the output is the QR image unchanged and no canvas is built; otherwise the canvas is as wide as the QR image and 72 pixels taller, the image is at (0,0), the caption is at the measured, centred position, and the caption band ends one margin above the bottom edge |
| `Cli.Run` | qr_generator.py:174-195 | exit code 2 exactly when the URL is implausible, and generation is then never reached; 1 when the URL is plausible and generation raises; 0 when it succeeds; no other code (as long as no status print raises, see "Left out") |

## Left out

- The QR encoding (`qrcode.QRCode`, `add_data`, `make`, `make_image`, qr_generator.py:69-79) is a third-party library. Its output enters the model only as the width and height of the rendered image.
- `_ensure_pil_image` (qr_generator.py:37-52) unwraps library objects and converts them to RGB. Nothing about it affects the sizes or positions modelled here.
- Canvas creation, `paste`, font loading and `draw.text` (qr_generator.py:96-128) are image-library primitives. `Compose` records where things are pasted and drawn, not the pixels. A failed font load only changes what the measuring primitives return, and those results are inputs of `MeasureCaption`.
- Creating directories and saving the file (qr_generator.py:86-87, 131-133) are I/O. Their failure is part of the abstract `Raised` outcome of `Cli.Run`.
- Argument parsing with its defaults, and the status lines `main` prints (qr_generator.py:142-172, 176, 190, 194), are left out. `Cli.Run` starts from the parsed URL string.
- UrlCheck.IsPlausibleUrl: gives the verdict of the pattern, not its running time. Python's backtracking engine can take time exponential in the number of dots before it rejects some strings, because a `.` may start a new `(?:\.[\w.-]+)` group or stay in the current one. One example is `"https://a"` followed by 50 dots and a `%`. On such inputs the source does not return in practice, while the model returns false.
- Cli.Run: for the same inputs the model returns exit code 2, while `main` in practice stays inside the pattern match.
- Cli.Run: assumes the status prints succeed. The prints at qr_generator.py:176 and 194 are outside the `try`, and the one at 190 is inside the `except` handler, so an exception from any of them (for example a `UnicodeEncodeError` when stdout cannot encode the URL, such as one holding a lone surrogate) escapes `main`. The process then ends with that exception and status 1 instead of returning 2, 1 or 0; at line 194 this happens after the file is already saved. The model does not capture this.
- Cli.Run: the generation outcome is an input, not computed from the URL, caption, box size or border, because encoding, drawing and saving are not modelled.
- Exactly which Unicode characters match `\w` is left open. It is the parameter `w`.
- An exception raised by a drawing step other than the measurement is not modelled separately. It propagates out of `generate_qr`, which `Cli.Run` covers as `Raised`.
