# Tide table downloader — string-building core

The downloader is a short interactive script. It asks for a station ID, a start date and an end date, each date in `YYYYMMDD` form. It echoes each date back as `Verify the entry is correct: YYYY/MM/DD`. It then requests high/low tide predictions for that station and range from the NOAA tides-and-currents data service, and rewrites the CSV it receives as a list of epoch-second timestamps.

This project models the two pure computations in that script, with Python's string semantics:

- **The date echo.** `FormatConfirm` cuts the typed text with Python's clamped slices `s[:4]`, `s[4:6]` and `s[6:]`. It then prints the pieces separated by `/`, after a fixed prefix. The script accepts any text here: a short date gives empty or shortened pieces, and a long one puts all the rest into the day. The model is total in the same way. One function serves both the start date and the end date, as the script uses the same four lines for each.
- **The request URL.** `BuildUrl` is the endpoint, then `begin_date=…&end_date=…&station=…` with the typed strings inserted verbatim, then the fixed suffix of seven parameters. Note that the URL gets the *raw* date text, not the slashed pieces of the echo. The constants `BaseHost` and `SuffixUrl` are each written as a concatenation of short literals. Together the pieces spell the script's literal on lines 23 and 25, character for character.

Each operation is proved against a partner:

- `ParseConfirm` reads an echo line back. It strips the prefix and deletes the two inserted slashes. It is an exact inverse in both directions (`ParseFormatConfirm`, `FormatParseConfirm`), so the echo is injective (`FormatConfirmInjective`). Separately, the echo always holds exactly two more slashes than the input (`FormatConfirmSlashes`).
- `ParseQuery` (split on `&`, cut each piece at its first `=`) is an independent reading of a query string. The script never reads a URL back: `QueryPart`, `ParseQuery` and their helpers are reference readings, used only to state what the built URL carries. The query of a built URL parses back into exactly the ten intended parameters, in order, if and only if none of the three typed values contains `&` (`ParseBuiltQuery`).

Module `PyStr` holds Python `str` semantics. Clamped slicing is what the script itself uses. `count`, `split`, `join` and `partition` are never called by the script. They are the vocabulary the reference readings use, together with their laws, for example that `split` and `join` undo each other.

## Model

| member | source | states |
|---|---|---|
| PyStr.Slice | src/tide_table_downloader.py:11-13 | Python's clamped slice: its length is `max(0, min(hi, len(s)) - lo)`, and each character is the source character at offset `lo`. |
| PyStr.SliceFrom | src/tide_table_downloader.py:13 | Python's `s[6:]` form `s[lo:]`: its length is `max(0, len(s) - lo)`, and each character is the source character at offset `lo`. |
| PyStr.SliceAdjacent | src/tide_table_downloader.py:11-13 | Two adjacent clamped slices concatenate to the slice that spans both. |
| PyStr.Count | src/tide_table_downloader.py:14 | Reference vocabulary, not called by the script, for counting the slashes line 14 inserts. The character count is at most the length, and it is zero exactly when the character is absent. |
| PyStr.CountConcat | src/tide_table_downloader.py:14 | Reference vocabulary for line 14's concatenation. The count of a character in a concatenation is the sum of the counts of the parts. |
| PyStr.Split | src/tide_table_downloader.py:24-25 | Reference reading, not called by the script, of the `&`-joined text these lines build. `k` separators give `k + 1` pieces, empty ones included, and no piece holds the separator. |
| PyStr.JoinCons | src/tide_table_downloader.py:24-25 | Reference vocabulary for the `&`-joined text these lines build. Joining a leading piece onto a non-empty list puts one separator after that piece. |
| PyStr.SplitFree | src/tide_table_downloader.py:24-25 | Law of the reference reading of these lines' text. A string without the separator splits into a single piece, itself. |
| PyStr.SplitCons | src/tide_table_downloader.py:24-25 | Law of the reference reading of these lines' text. A first piece without the separator is split off whole, whatever follows. |
| PyStr.SplitJoin | src/tide_table_downloader.py:24-25 | Law of the reference reading of these lines' text. Splitting undoes joining when no piece contains the separator. |
| PyStr.JoinSplit | src/tide_table_downloader.py:24-25 | Law of the reference reading of these lines' text. Joining undoes splitting, for every string. |
| PyStr.Partition | src/tide_table_downloader.py:23-24 | Reference reading, not called by the script, used to cut the built URL at `?` and each parameter at `=`. The head has no separator; if the separator occurs, the string is head + separator + tail; if not, the result is the whole string and an empty tail. |
| PyStr.PartitionAt | src/tide_table_downloader.py:23-24 | Law of the reference reading. Partitioning `a + sep + b` gives back `(a, b)` whenever `a` has no separator. |
| TideTableDownloader.SplitDate | src/tide_table_downloader.py:11-13 | Year, month and day have lengths `min(4, n)`, `max(0, min(6, n) - 4)` and `max(0, n - 6)`, and they concatenate back to the input. |
| TideTableDownloader.DateText | src/tide_table_downloader.py:14 | The `year/month/day` text holds the three pieces verbatim, in order, with a slash right after the year and another right after the month; its length is theirs plus two. |
| TideTableDownloader.FormatConfirm | src/tide_table_downloader.py:14 | The echo starts with the fixed prefix and is exactly two characters longer than prefix plus input. |
| TideTableDownloader.UnslashDate | src/tide_table_downloader.py:11-14 | Reference reading, not performed by the script, of the slashed text these lines build. An accepted text is two characters longer than the date it yields. |
| TideTableDownloader.ParseConfirm | src/tide_table_downloader.py:14 | Reference reading, not performed by the script, of the line printed here. An accepted line is the prefix length plus two characters longer than the date it yields. |
| TideTableDownloader.UnslashDateText | src/tide_table_downloader.py:11-14 | Deleting the slashes from the `year/month/day` text recovers the typed date. |
| TideTableDownloader.DateTextUnslash | src/tide_table_downloader.py:11-14 | Every text the slash remover accepts is the `year/month/day` text of its result. |
| TideTableDownloader.ParseFormatConfirm | src/tide_table_downloader.py:11-14 | Reading any echo back gives the typed date: the echo loses nothing. |
| TideTableDownloader.FormatParseConfirm | src/tide_table_downloader.py:11-14 | Every line the reader accepts is the echo of the date it returns. |
| TideTableDownloader.FormatConfirmInjective | src/tide_table_downloader.py:11-14 | Two different typed dates never give the same echo. |
| TideTableDownloader.FormatConfirmEightChars | src/tide_table_downloader.py:11-14 | For an 8-character input the echo is prefix + `s[0:4]/s[4:6]/s[6:8]`. |
| TideTableDownloader.FormatConfirmExample | src/tide_table_downloader.py:14 | `20230115` is echoed as `Verify the entry is correct: 2023/01/15`. |
| TideTableDownloader.DateTextSlashes | src/tide_table_downloader.py:14 | The slashed text holds two more slashes than the three pieces together. |
| TideTableDownloader.FormatConfirmSlashes | src/tide_table_downloader.py:14 | The echo holds exactly two more slashes than the typed text. |
| TideTableDownloader.Layout | src/tide_table_downloader.py:24 | Around any prefix and suffix, the parameter text puts start, end and station verbatim at offsets 11, 21 + len(start) and 30 + len(start) + len(end). |
| TideTableDownloader.ParamUrl | src/tide_table_downloader.py:24 | The parameter text is `begin_date=`, start, `&end_date=`, end, `&station=`, station: each typed value verbatim at its offset, and the length is theirs plus 30. |
| TideTableDownloader.BuildUrl | src/tide_table_downloader.py:23-26 | The URL is spelled from the endpoint (line 23), the parameter text and the suffix (line 25). It starts with the endpoint, ends with the suffix, and holds the three typed values verbatim, in order, at fixed offsets. The rest of its meaning is carried by BuildUrlIsRenderedQuery, QueryPartOfBuildUrl and ParseBuiltQuery. |
| TideTableDownloader.BaseUrlQueryMark | src/tide_table_downloader.py:23 | The endpoint constant ends in `?`, and that is its only `?`. |
| TideTableDownloader.RenderAll | src/tide_table_downloader.py:24-25 | Each parameter is rendered as `key=value`, in order. |
| TideTableDownloader.ParseParam | src/tide_table_downloader.py:24-25 | Reference reading, not performed by the script, of one `key=value` piece these lines build. A parsed key never contains `=`. |
| TideTableDownloader.ParseAll | src/tide_table_downloader.py:24-25 | Reference reading of these lines' pieces. Each piece is parsed as one parameter, in order. |
| TideTableDownloader.ParseQuery | src/tide_table_downloader.py:24-25 | Reference reading, not performed by the script, of the query these lines build. A query with `k` ampersands reads back as `k + 1` parameters. |
| TideTableDownloader.SuffixIsRendered | src/tide_table_downloader.py:25 | The suffix literal is `&` followed by the seven fixed parameters rendered and joined with `&`. |
| TideTableDownloader.ParamsAreRendered | src/tide_table_downloader.py:24-25 | Parameter text plus suffix is the ten parameters — begin_date, end_date, station, then the seven fixed ones — rendered in order. |
| TideTableDownloader.BuildUrlIsRenderedQuery | src/tide_table_downloader.py:23-25 | The URL is the endpoint followed by the rendered ten-parameter query. |
| TideTableDownloader.QueryPartOfBuildUrl | src/tide_table_downloader.py:23-25 | The endpoint's only `?` is its last character, so the text after the first `?` is exactly the query, whatever was typed. |
| TideTableDownloader.ValueFree | src/tide_table_downloader.py:24 | Law of the reference reading. A piece without a given character yields a value without it. |
| TideTableDownloader.ParseRenderQuery | src/tide_table_downloader.py:24-25 | Rendering then parsing returns the same non-empty parameter list when keys hold no `&` or `=` and values hold no `&`. |
| TideTableDownloader.QueryParamsFree | src/tide_table_downloader.py:24-25 | With no `&` typed, all ten parameters survive rendering and parsing. |
| TideTableDownloader.ParseBuiltQuery | src/tide_table_downloader.py:24-25 | The built URL's query parses back into exactly the ten intended parameters, with the typed values verbatim, if and only if no typed value contains `&`. |
| TideTableDownloader.UrlCarriesRawInputs | src/tide_table_downloader.py:24 | With no `&` typed, the URL's first three parameters are the raw start date, end date and station. |
| TideTableDownloader.UrlDatesAreNotEchoed | src/tide_table_downloader.py:11-24 | With no `&` typed, the URL's date parameters are never the slashed `year/month/day` text the user was asked to verify. |
| TideTableDownloader.EchoFormDiffers | src/tide_table_downloader.py:11-14 | The slashed echo form of a date is never the date itself. |
| TideTableDownloader.Run | src/tide_table_downloader.py:9-26 | One run gives both echoes by the same function, and each determines its date. The request URL is built from the raw inputs, and, with no `&` typed, carries them as its first three values. |

## Left out

- The prompts, `input()` and `print()`, including the newline `print` adds after the echo: these are terminal I/O. The model starts at the strings typed and ends at the strings printed.
- The HTTP GET (`requests.get`) and the service's response: network access. The model ends at the URL. Every guarantee here is about the string the script builds. What the HTTP library does with that string (re-quoting characters such as spaces, or treating a typed `#` as the start of a fragment that is never sent) is not modelled, so the service need not receive exactly the ten parameters `ParseBuiltQuery` describes.
- Writing the response to `./tides.txt`, and overwriting it later: file I/O.
- Reading the CSV with pandas, parsing the `Date Time` column, and converting to epoch seconds with `(ns / 1e9).astype(int)`: third-party code and floating point. The script divides in floating point and then truncates. It does not use integer division.
- Writing the transformed table back as CSV: pandas and file I/O.
- URL encoding: the script performs none before the request, and puts the typed values into the URL string verbatim. The model does the same. Any quoting done later by the HTTP library is covered by the HTTP line above.
