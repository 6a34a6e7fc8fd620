# Hello Country service — Dafny model

The service answers `GET /` with a greeting chosen by the `COUNTRY_CODE`
setting. `_country_code` resolves the setting. An unset setting becomes `"EN"`.
A set value is stripped of surrounding whitespace and upper-cased. A value that
is then empty also becomes `"EN"`. `read_root` looks the resolved code up in the
greeting table loaded at startup. It answers `{code, message}` with status 200
when the code is a key. Otherwise it answers status 404 with the error text
`Unknown country code '<code>'`.

The model is written as pure functions and lemmas, in three modules:

- `Wrappers` (wrappers.dfy): `Option`, used for a setting that may be unset.
- `AsciiText` (ascii_text.dfy): Python's `str.strip()` and `str.upper()` on
  ASCII. Whitespace is every ASCII character Python's `str.isspace()` accepts:
  TAB, LF, VT, FF, CR, the separators 0x1C-0x1F, and SPACE. Upper-casing maps
  `a`-`z` to `A`-`Z` and leaves every other character as it is.
- `HelloCountry` (main.dfy): `DefaultCountryCode`, the resolver `CountryCode`
  and the handler `ReadRoot`. The environment read is the `setting`
  parameter, with `None` for an unset variable. The module-level greeting table
  is the `greetings` parameter, a `map<string, string>`. The two bodies are the
  `Response` datatype, `Ok(code, message)` or `NotFound(error)`. Its `Status()`
  gives 200 (OK, section 15.3.1 of RFC 9110) or 404 (Not Found, section
  15.5.5 of RFC 9110).

The 404 text embeds the resolved, normalised code (app/main.py:39, 45).

## Model

| member | source | states |
|---|---|---|
| AsciiText.UpperChar | app/main.py:29 | the upper-cased character is never lower-case; a lower-case letter becomes the capital at the same alphabet position; any other character is unchanged; whitespace stays whitespace and nothing else becomes whitespace |
| AsciiText.Upper | app/main.py:29 | `upper()` keeps the length and maps each character on its own, in place |
| AsciiText.TrimStart | app/main.py:29 | the result is a suffix of the input; everything dropped is whitespace; the result does not start with whitespace |
| AsciiText.TrimEnd | app/main.py:29 | the result is a prefix of the input; everything dropped is whitespace; the result does not end with whitespace |
| AsciiText.Strip | app/main.py:29 | `strip()` returns a contiguous middle of the input with only whitespace around it; neither end of the result is whitespace; the result is empty exactly when the input is all whitespace |
| AsciiText.StripPadded | app/main.py:29 | whatever whitespace surrounds a middle without whitespace at its ends, `strip()` returns exactly that middle (so the result is unique) |
| AsciiText.TrimStartPadded | app/main.py:29 | leading whitespace in front of a part that starts with a non-space is exactly what `lstrip` removes |
| AsciiText.TrimEndPadded | app/main.py:29 | trailing whitespace after a part that ends with a non-space is exactly what `rstrip` removes |
| AsciiText.StripTrimmed | app/main.py:29 | `strip()` leaves a string without surrounding whitespace unchanged |
| AsciiText.UpperTrimmed | app/main.py:29 | upper-casing keeps a stripped string stripped and removes every lower-case letter |
| AsciiText.UpperNoLower | app/main.py:29 | `upper()` leaves a string without lower-case letters unchanged |
| HelloCountry.Normalize | app/main.py:29 | `strip().upper()` has no surrounding whitespace and no lower-case letter; it is empty exactly when the input is all whitespace; it is the upper-cased middle left after removing only surrounding whitespace |
| HelloCountry.NormalizePadded | app/main.py:29 | interior characters survive in order, only case-mapped: normalising `pre + mid + post` with whitespace padding gives `Upper(mid)` (e.g. `"fr"` gives `"FR"`) |
| HelloCountry.NormalizeFixesNormalized | app/main.py:29 | a stripped string without lower-case letters normalises to itself |
| HelloCountry.NormalizeIdempotent | app/main.py:29 | normalising twice equals normalising once |
| HelloCountry.DefaultCountryCodeCanonical | app/main.py:17 | the fallback code is `"EN"`, it is already canonical, and an unset setting resolves to it |
| HelloCountry.CountryCode | app/main.py:17-30 | the resolved code is non-empty, has no surrounding whitespace and no lower-case letter; an unset setting gives `"EN"`; an empty or all-whitespace setting gives `"EN"`; any other setting gives its normalised value |
| HelloCountry.CountryCodeIdempotent | app/main.py:27-30 | feeding a resolved code back in as the setting yields the same code |
| HelloCountry.CountryCodeOfNormalized | app/main.py:27-30 | resolving a normalised setting gives the same code as resolving the raw setting |
| HelloCountry.BlankSettingIsUnset | app/main.py:28-30 | an all-whitespace setting (e.g. `"   "`) resolves exactly as an unset one, to `"EN"` |
| HelloCountry.Response.Status | app/main.py:42-48 | success is sent with 200 and only success; the error body is sent with 404 and only it |
| HelloCountry.UnknownCodeError | app/main.py:45 | the error text is `Unknown country code '` followed by the code and a closing quote: prefix, exact code in the middle, quote at the end |
| HelloCountry.ErrorCodeRoundTrip | app/main.py:45 | the exact code can be read back from the 404 error text |
| HelloCountry.ReadRoot | app/main.py:37-48 | success if and only if the resolved code is a key; a success carries the resolved code and the table's greeting for it; otherwise the 404 text is `Unknown country code '<code>'` with the exact resolved code; status 200 or 404 accordingly |
| HelloCountry.ReadRootDependsOnlyOnCode | app/main.py:39-48 | two settings that resolve to the same code get the same response |
| HelloCountry.CanonicalKeyServed | app/main.py:39-40 | every upper-case, stripped key of the table is served with its greeting when the setting is that key |
| HelloCountry.NonCanonicalKeyUnserved | app/main.py:29-30 | a table key with a lower-case letter or surrounding whitespace is never served, whatever the setting |
| HelloCountry.ExampleLowerCaseFound | app/main.py:27-48 | with table `{"EN": "Hello!", "FR": "Bonjour!"}`, setting `fr` answers `{code: "FR", message: "Bonjour!"}` |
| HelloCountry.ExampleUnknown | app/main.py:27-48 | with the same table, setting `zz` answers 404 with `Unknown country code 'ZZ'` |
| HelloCountry.ExampleDefault | app/main.py:17-48 | with the same table, an unset setting or `"   "` answers `{code: "EN", message: "Hello!"}` |

## Left out

- `_load_greetings` (app/main.py:20-24): reading the JSON file and the `RuntimeError` on a missing file are startup I/O. The table is a given map.
- `load_dotenv()` and `os.getenv` (app/main.py:13, 28): environment access is I/O. The setting is a parameter.
- FastAPI app construction, route registration, `async`, and `JSONResponse` serialisation (app/main.py:33, 37-38, 43): HTTP plumbing. Bodies are the `Response` datatype; the status is `Response.Status`.
- app/__main__.py: process bootstrap (reads `PORT`, starts uvicorn). It is not part of this model.
- The table is never changed by the handler (app/main.py:34, 40). This holds by construction: the table is an immutable map value passed to `ReadRoot`, and the model has no state a call could change. No separate lemma states it.
- AsciiText.IsSpace: Python's `str.strip()` also removes non-ASCII whitespace (U+0085, U+00A0, U+2000-U+200A and others). The model treats only ASCII characters as whitespace.
- AsciiText.UpperChar: Python's `str.upper()` also maps non-ASCII letters, some to several characters (`'ß'` becomes `"SS"`). The model changes only `a`-`z`.
- HelloCountry.ReadRoot: the table's values are taken to be strings, as the `Dict[str, str]` annotation of `_load_greetings` declares (app/main.py:20). Under that assumption `_greetings.get(code) is None` (app/main.py:40-42) is the same as `code !in greetings`. A data file with a `null` value (`{"EN": null}` answers 404 for `EN` in Python) or a non-string value (`{"EN": 5}` is sent as the message) cannot be expressed by `map<string, string>`.
