/**
 * The string-building logic of the tide table downloader: the confirmation
 * line echoed after each `YYYYMMDD` date is entered, and the query URL sent
 * to the tide prediction service.  Neither piece validates anything; both
 * are total functions of the strings the user typed.
 */
module TideTableDownloader {
  import opened PyStr

  datatype Option<T> = None | Some(value: T)

  // ---------------------------------------------------------------------
  // Date confirmation echo
  // ---------------------------------------------------------------------

  const ConfirmPrefix: string := "Verify the entry is correct: "

  /** The three pieces a date string is cut into for the echo. */
  datatype DateParts = DateParts(year: string, month: string, day: string)

  /** `year = s[:4]`, `month = s[4:6]`, `day = s[6:]`, with Python's clamped
      slicing: any string is accepted, and the pieces always partition it. */
  function SplitDate(s: string): (p: DateParts)
    ensures |p.year| == Min(4, |s|)
    ensures |p.month| == Max(0, Min(6, |s|) - 4)
    ensures |p.day| == Max(0, |s| - 6)
    ensures p.year + p.month + p.day == s
  {
    var p := DateParts(Slice(s, 0, 4), Slice(s, 4, 6), SliceFrom(s, 6));
    SliceAdjacent(s, 0, 4, 6);
    SliceAdjacent(s, 0, 6, |s| + 6);
    assert Slice(s, 0, |s| + 6) == s;
    assert SliceFrom(s, 6) == Slice(s, 6, |s| + 6);
    p
  }

  /** The slash-separated reading `year/month/day`: the three pieces
      verbatim, in order, with a slash right after the year and another right
      after the month. */
  function DateText(p: DateParts): (r: string)
    ensures |r| == |p.year| + |p.month| + |p.day| + 2
    ensures r[|p.year|] == '/' && r[|p.year| + 1 + |p.month|] == '/'
    ensures r[..|p.year|] == p.year
    ensures r[|p.year| + 1..|p.year| + 1 + |p.month|] == p.month
    ensures r[|p.year| + 2 + |p.month|..] == p.day
  {
    p.year + "/" + p.month + "/" + p.day
  }

  /** The confirmation line printed after a date has been entered; the same
      function serves the start date and the end date. */
  function FormatConfirm(s: string): (r: string)
    ensures |r| == |ConfirmPrefix| + |s| + 2
    ensures r[..|ConfirmPrefix|] == ConfirmPrefix
  {
    ConfirmPrefix + DateText(SplitDate(s))
  }

  /** Deletes the two slashes from a `year/month/day` text, at the places
      where `DateText` puts them for a date of the resulting length; `None`
      when a slash is missing there. */
  function UnslashDate(d: string): (r: Option<string>)
    ensures r.Some? ==> |r.value| + 2 == |d|
  {
    if |d| < 2 then None
    else
      var n := |d| - 2;
      var y := Min(4, n);
      var m := Min(6, n) - y;
      if d[y] == '/' && d[y + 1 + m] == '/' then
        Some(d[..y] + d[y + 1..y + 1 + m] + d[y + 2 + m..])
      else None
  }

  /** Reads a confirmation line back: strips the fixed prefix and deletes
      the two inserted slashes.  `None` when the line could not have been
      produced by `FormatConfirm`. */
  function ParseConfirm(msg: string): (r: Option<string>)
    ensures r.Some? ==> |r.value| + |ConfirmPrefix| + 2 == |msg|
  {
    if |msg| < |ConfirmPrefix| || msg[..|ConfirmPrefix|] != ConfirmPrefix then None
    else UnslashDate(msg[|ConfirmPrefix|..])
  }

  lemma Reassemble(d: string, i: nat, j: nat)
    requires i < j < |d| && d[i] == '/' && d[j] == '/'
    ensures d[..i] + "/" + d[i + 1..j] + "/" + d[j + 1..] == d
  {
  }

  lemma PiecesUnique(a: string, b: string, c: string, a': string, b': string, c': string)
    requires a + b + c == a' + b' + c' && |a| == |a'| && |b| == |b'|
    ensures a == a' && b == b' && c == c'
  {
    var s := a + b + c;
    assert a == s[..|a|] == a';
    assert b == s[|a|..|a| + |b|] == b';
    assert c == s[|a| + |b|..] == c';
  }

  lemma PrefixParts(pre: string, d: string)
    ensures |pre + d| >= |pre| && (pre + d)[..|pre|] == pre && (pre + d)[|pre|..] == d
  {
  }

  /** Deleting the slashes from the `year/month/day` text recovers the date. */
  lemma UnslashDateText(s: string)
    ensures UnslashDate(DateText(SplitDate(s))) == Some(s)
  {
    var p := SplitDate(s);
    var d := DateText(p);
    assert d[..|p.year|] + d[|p.year| + 1..|p.year| + 1 + |p.month|] + d[|p.year| + 2 + |p.month|..] == s;
  }

  /** Every text `UnslashDate` accepts is the `year/month/day` text of its result. */
  lemma DateTextUnslash(d: string, s: string)
    requires UnslashDate(d) == Some(s)
    ensures DateText(SplitDate(s)) == d
  {
    var n := |d| - 2;
    var y := Min(4, n);
    var m := Min(6, n) - y;
    var p := SplitDate(s);
    PiecesUnique(p.year, p.month, p.day, d[..y], d[y + 1..y + 1 + m], d[y + 2 + m..]);
    Reassemble(d, y, y + 1 + m);
  }

  /** Removing the two inserted slashes from an echo recovers the input. */
  lemma ParseFormatConfirm(s: string)
    ensures ParseConfirm(FormatConfirm(s)) == Some(s)
  {
    PrefixParts(ConfirmPrefix, DateText(SplitDate(s)));
    UnslashDateText(s);
  }

  /** Every line `ParseConfirm` accepts is the echo of what it returns. */
  lemma FormatParseConfirm(msg: string, s: string)
    requires ParseConfirm(msg) == Some(s)
    ensures FormatConfirm(s) == msg
  {
    var d := msg[|ConfirmPrefix|..];
    DateTextUnslash(d, s);
    assert msg == msg[..|ConfirmPrefix|] + d;
  }

  /** Different dates never produce the same echo. */
  lemma FormatConfirmInjective(s: string, t: string)
    requires FormatConfirm(s) == FormatConfirm(t)
    ensures s == t
  {
    ParseFormatConfirm(s);
    ParseFormatConfirm(t);
  }

  /** For a well-formed eight-character date the echo is `YYYY/MM/DD`. */
  lemma FormatConfirmEightChars(s: string)
    requires |s| == 8
    ensures FormatConfirm(s) == ConfirmPrefix + s[0..4] + "/" + s[4..6] + "/" + s[6..8]
  {
    var p := SplitDate(s);
    assert p.year == s[0..4];
    assert p.month == s[4..6];
    assert p.day == s[6..8];
  }

  lemma FormatConfirmExample()
    ensures FormatConfirm("20230115") == "Verify the entry is correct: 2023/01/15"
  {
    FormatConfirmEightChars("20230115");
  }

  lemma DateTextSlashes(p: DateParts)
    ensures Count(DateText(p), '/') == Count(p.year + p.month + p.day, '/') + 2
  {
    var ym := p.year + "/" + p.month;
    CountConcat(p.year, "/", '/');
    CountConcat(p.year + "/", p.month, '/');
    CountConcat(ym, "/", '/');
    CountConcat(ym + "/", p.day, '/');
    CountConcat(p.year, p.month, '/');
    CountConcat(p.year + p.month, p.day, '/');
  }

  lemma PrefixHasNoSlash()
    ensures '/' !in ConfirmPrefix
  {
  }

  /** The echo holds exactly two slashes more than the input does. */
  lemma FormatConfirmSlashes(s: string)
    ensures Count(FormatConfirm(s), '/') == Count(s, '/') + 2
  {
    var p := SplitDate(s);
    DateTextSlashes(p);
    PrefixHasNoSlash();
    CountConcat(ConfirmPrefix, DateText(p), '/');
  }

  // ---------------------------------------------------------------------
  // Query URL
  // ---------------------------------------------------------------------

  /** The service endpoint; the query follows its `?`.  The host part is
      written as two literals that together spell the script's. */
  const BaseHost: string := "https://api.tidesandcurrents" + ".noaa.gov/api/prod/datagetter"

  const BaseUrl: string := BaseHost + "?"

  /** The fixed tail of the query, written one parameter at a time; the
      pieces together spell the script's single suffix literal. */
  const SuffixUrl: string :=
    "&product=predictions" + "&datum=MLLW" + "&time_zone=gmt" + "&interval=hilo"
    + "&units=metric" + "&application=OOI_AScherer" + "&format=csv"

  /** The user-supplied part of the query: the three typed values
      verbatim, in order, each after its own `key=`. */
  function ParamUrl(start: string, end: string, station: string): (r: string)
    ensures |r| == 30 + |start| + |end| + |station|
    ensures r[..11] == "begin_date=" && r[11..11 + |start|] == start
    ensures r[11 + |start|..21 + |start|] == "&end_date="
    ensures r[21 + |start|..21 + |start| + |end|] == end
    ensures r[21 + |start| + |end|..30 + |start| + |end|] == "&station="
    ensures r[30 + |start| + |end|..] == station
  {
    "begin_date=" + start + "&end_date=" + end + "&station=" + station
  }

  /** The request URL.  Whatever the user types, it starts with the
      endpoint, ends with the fixed suffix, and holds the start date, end date
      and station verbatim, in that order, at fixed offsets from the endpoint. */
  function BuildUrl(start: string, end: string, station: string): (url: string)
    ensures var b := |BaseUrl|;
      && |url| == b + 30 + |start| + |end| + |station| + |SuffixUrl|
      && url[..b] == BaseUrl
      && url[|url| - |SuffixUrl|..] == SuffixUrl
      && url[b + 11..b + 11 + |start|] == start
      && url[b + 21 + |start|..b + 21 + |start| + |end|] == end
      && url[b + 30 + |start| + |end|..b + 30 + |start| + |end| + |station|] == station
  {
    Layout(BaseUrl, start, end, station, SuffixUrl);
    BaseUrl + ParamUrl(start, end, station) + SuffixUrl
  }

  lemma Layout(pre: string, start: string, end: string, station: string, post: string)
    ensures var url := pre + ParamUrl(start, end, station) + post;
      var b := |pre|;
      && |url| == b + 30 + |start| + |end| + |station| + |post|
      && url[..b] == pre
      && url[|url| - |post|..] == post
      && url[b + 11..b + 11 + |start|] == start
      && url[b + 21 + |start|..b + 21 + |start| + |end|] == end
      && url[b + 30 + |start| + |end|..b + 30 + |start| + |end| + |station|] == station
  {
    var r := ParamUrl(start, end, station);
    var url := pre + r + post;
    assert url[|pre|..|pre| + |r|] == r;
  }

  /** One `key=value` query parameter. */
  datatype Param = Param(key: string, value: string)

  /** The seven parameters the script fixes: prediction data, MLLW datum,
      GMT, high/low extrema only, metric units, the caller's application
      name, CSV output. */
  function FixedParams(): seq<Param>
  {
    [ Param("product", "predictions"), Param("datum", "MLLW"), Param("time_zone", "gmt"),
      Param("interval", "hilo"), Param("units", "metric"),
      Param("application", "OOI_AScherer"), Param("format", "csv") ]
  }

  /** The ten parameters the request carries, in the order it sends them. */
  function QueryParams(start: string, end: string, station: string): seq<Param>
  {
    [Param("begin_date", start), Param("end_date", end), Param("station", station)] + FixedParams()
  }

  function RenderParam(p: Param): string
  {
    p.key + "=" + p.value
  }

  function RenderAll(ps: seq<Param>): (r: seq<string>)
    ensures |r| == |ps|
    ensures forall i :: 0 <= i < |ps| ==> r[i] == RenderParam(ps[i])
    decreases |ps|
  {
    if |ps| == 0 then [] else [RenderParam(ps[0])] + RenderAll(ps[1..])
  }

  /** `key=value` pairs joined with `&`, without any URL encoding. */
  function RenderQuery(ps: seq<Param>): string
  {
    Join(RenderAll(ps), '&')
  }

  /** A `key=value` piece read back: the key ends at the first `=`. */
  function ParseParam(kv: string): (p: Param)
    ensures '=' !in p.key
  {
    var (k, v) := Partition(kv, '=');
    Param(k, v)
  }

  function ParseAll(pieces: seq<string>): (r: seq<Param>)
    ensures |r| == |pieces|
    ensures forall i :: 0 <= i < |pieces| ==> r[i] == ParseParam(pieces[i])
    decreases |pieces|
  {
    if |pieces| == 0 then [] else [ParseParam(pieces[0])] + ParseAll(pieces[1..])
  }

  /** The query part of a URL: everything after its first `?`. */
  function QueryPart(url: string): string
  {
    Partition(url, '?').1
  }

  /** A query string read back: split on `&`, each piece cut at its first `=`. */
  function ParseQuery(q: string): (ps: seq<Param>)
    ensures |ps| == Count(q, '&') + 1
  {
    ParseAll(Split(q, '&'))
  }

  // The fixed parameters, one literal at a time.

  lemma FixedRenderedHead()
    ensures "&" + RenderParam(Param("product", "predictions")) == "&product=predictions"
    ensures "&" + RenderParam(Param("datum", "MLLW")) == "&datum=MLLW"
  {
  }

  lemma FixedRenderedMiddle()
    ensures "&" + RenderParam(Param("time_zone", "gmt")) == "&time_zone=gmt"
    ensures "&" + RenderParam(Param("interval", "hilo")) == "&interval=hilo"
    ensures "&" + RenderParam(Param("units", "metric")) == "&units=metric"
  {
  }

  lemma FixedRenderedTail()
    ensures "&" + RenderParam(Param("application", "OOI_AScherer")) == "&application=OOI_AScherer"
    ensures "&" + RenderParam(Param("format", "csv")) == "&format=csv"
  {
  }

  lemma SuffixFromPieces(a: string, b: string, c: string, d: string, e: string, f: string, g: string)
    requires a == "&product=predictions" && b == "&datum=MLLW" && c == "&time_zone=gmt"
    requires d == "&interval=hilo" && e == "&units=metric"
    requires f == "&application=OOI_AScherer" && g == "&format=csv"
    ensures SuffixUrl == a + b + c + d + e + f + g
  {
  }

  lemma UserRendered(start: string, end: string, station: string)
    ensures RenderParam(Param("begin_date", start)) == "begin_date=" + start
    ensures "&" + RenderParam(Param("end_date", end)) == "&end_date=" + end
    ensures "&" + RenderParam(Param("station", station)) == "&station=" + station
  {
    assert "begin_date" + "=" == "begin_date=";
    assert "&" + ("end_date" + "=" + end) == ("&" + "end_date" + "=") + end;
    assert "&" + ("station" + "=" + station) == ("&" + "station" + "=") + station;
  }

  /** A parameter that survives rendering and parsing unchanged. */
  predicate Plain(p: Param)
  {
    '&' !in p.key && '=' !in p.key && '&' !in p.value
  }

  lemma FixedPlainHead()
    ensures Plain(Param("product", "predictions")) && Plain(Param("datum", "MLLW"))
  {
  }

  lemma FixedPlainMiddle()
    ensures Plain(Param("time_zone", "gmt")) && Plain(Param("interval", "hilo")) && Plain(Param("units", "metric"))
  {
  }

  lemma FixedPlainTail()
    ensures Plain(Param("application", "OOI_AScherer")) && Plain(Param("format", "csv"))
  {
  }

  lemma UserKeysFree()
    ensures '&' !in "begin_date" && '=' !in "begin_date"
    ensures '&' !in "end_date" && '=' !in "end_date"
    ensures '&' !in "station" && '=' !in "station"
  {
  }

  lemma HostHead()
    ensures '?' !in "https://api.tidesandcurrents"
  {
  }

  lemma HostTail()
    ensures '?' !in ".noaa.gov/api/prod/datagetter"
  {
  }

  /** The endpoint ends in `?`, and that is its only `?`. */
  lemma BaseUrlQueryMark()
    ensures |BaseUrl| > 0 && BaseUrl[|BaseUrl| - 1] == '?'
    ensures '?' !in BaseUrl[..|BaseUrl| - 1]
  {
    HostHead();
    HostTail();
    assert BaseUrl[..|BaseUrl| - 1] == BaseHost;
  }

  // Generic reshaping of joins, free of literals.

  lemma JoinSeven(a: string, b: string, c: string, d: string, e: string, f: string, g: string, sep: char)
    ensures [sep] + Join([a, b, c, d, e, f, g], sep)
         == ([sep] + a) + ([sep] + b) + ([sep] + c) + ([sep] + d) + ([sep] + e) + ([sep] + f) + ([sep] + g)
  {
    JoinCons(f, [g], sep);
    JoinCons(e, [f, g], sep);
    JoinCons(d, [e, f, g], sep);
    JoinCons(c, [d, e, f, g], sep);
    JoinCons(b, [c, d, e, f, g], sep);
    JoinCons(a, [b, c, d, e, f, g], sep);
  }

  /** The seven fixed parameters, rendered and joined, are the suffix literal. */
  lemma SuffixIsRendered()
    ensures SuffixUrl == "&" + RenderQuery(FixedParams())
  {
    var r := RenderAll(FixedParams());
    assert r == [r[0], r[1], r[2], r[3], r[4], r[5], r[6]];
    JoinSeven(r[0], r[1], r[2], r[3], r[4], r[5], r[6], '&');
    FixedRenderedHead();
    FixedRenderedMiddle();
    FixedRenderedTail();
    SuffixFromPieces("&" + r[0], "&" + r[1], "&" + r[2], "&" + r[3], "&" + r[4], "&" + r[5], "&" + r[6]);
  }

  lemma JoinThreeThen(x: string, y: string, z: string, f: seq<string>, sep: char)
    requires |f| > 0
    ensures Join([x, y, z] + f, sep) == x + ([sep] + y) + ([sep] + z) + ([sep] + Join(f, sep))
  {
    assert ([x, y, z] + f)[1..] == [y, z] + f;
    assert ([y, z] + f)[1..] == [z] + f;
    JoinCons(z, f, sep);
    JoinCons(y, [z] + f, sep);
    JoinCons(x, [y, z] + f, sep);
  }

  lemma RenderAllAppend(a: seq<Param>, b: seq<Param>)
    ensures RenderAll(a + b) == RenderAll(a) + RenderAll(b)
  {
  }

  lemma Assoc(a: string, b: string, c: string)
    ensures a + b + c == a + (b + c)
  {
  }

  lemma Regroup(a: string, b: string, c: string, d: string, e: string, f: string, g: string)
    ensures a + b + c + d + e + f + g == (a + b) + (c + d) + (e + f) + g
  {
  }

  /** The query the script builds is the ten parameters rendered in order. */
  lemma ParamsAreRendered(start: string, end: string, station: string)
    ensures ParamUrl(start, end, station) + SuffixUrl == RenderQuery(QueryParams(start, end, station))
  {
    var user := [Param("begin_date", start), Param("end_date", end), Param("station", station)];
    RenderAllAppend(user, FixedParams());
    var u := RenderAll(user);
    assert u == [u[0], u[1], u[2]];
    JoinThreeThen(u[0], u[1], u[2], RenderAll(FixedParams()), '&');
    SuffixIsRendered();
    UserRendered(start, end, station);
    Regroup("begin_date=", start, "&end_date=", end, "&station=", station, SuffixUrl);
  }

  /** The URL is the endpoint followed by the ten parameters, in order. */
  lemma BuildUrlIsRenderedQuery(start: string, end: string, station: string)
    ensures BuildUrl(start, end, station) == BaseUrl + RenderQuery(QueryParams(start, end, station))
  {
    ParamsAreRendered(start, end, station);
    Assoc(BaseUrl, ParamUrl(start, end, station), SuffixUrl);
  }

  /** The endpoint's only `?` is its last character, so the query part of a
      built URL is exactly the parameter text, whatever the user typed. */
  lemma QueryPartOfBuildUrl(start: string, end: string, station: string)
    ensures QueryPart(BuildUrl(start, end, station)) == RenderQuery(QueryParams(start, end, station))
  {
    BaseUrlQueryMark();
    var rest := RenderQuery(QueryParams(start, end, station));
    BuildUrlIsRenderedQuery(start, end, station);
    assert BaseUrl == BaseUrl[..|BaseUrl| - 1] + ['?'];
    PartitionAt(BaseUrl[..|BaseUrl| - 1], rest, '?');
  }

  /** A piece free of `sep`, cut at its first `=`, has a value free of `sep`. */
  lemma ValueFree(piece: string, sep: char)
    requires sep !in piece
    ensures sep !in ParseParam(piece).value
  {
    if '=' in piece {
      var (k, v) := Partition(piece, '=');
      assert piece == k + ['='] + v;
      assert forall i :: 0 <= i < |v| ==> v[i] == piece[|k| + 1 + i];
    }
  }

  /** Rendering and parsing are inverse on parameters whose keys hold no
      `&` or `=` and whose values hold no `&`. */
  lemma {:induction false} ParseRenderQuery(ps: seq<Param>)
    requires |ps| > 0
    requires forall i :: 0 <= i < |ps| ==> Plain(ps[i])
    ensures ParseQuery(RenderQuery(ps)) == ps
  {
    var r := RenderAll(ps);
    forall i | 0 <= i < |r|
      ensures '&' !in r[i]
    {
      assert r[i] == ps[i].key + "=" + ps[i].value;
    }
    SplitJoin(r, '&');
    forall i | 0 <= i < |ps|
      ensures ParseParam(r[i]) == ps[i]
    {
      PartitionAt(ps[i].key, ps[i].value, '=');
      assert r[i] == ps[i].key + ['='] + ps[i].value;
    }
    assert ParseAll(r) == ps;
  }

  /** With no `&` typed, all ten parameters are plain. */
  lemma QueryParamsFree(start: string, end: string, station: string)
    requires '&' !in start && '&' !in end && '&' !in station
    ensures forall i :: 0 <= i < 10 ==> Plain(QueryParams(start, end, station)[i])
  {
    UserKeysFree();
    FixedPlainHead();
    FixedPlainMiddle();
    FixedPlainTail();
    var ps := QueryParams(start, end, station);
    forall i | 3 <= i < 10
      ensures ps[i] == FixedParams()[i - 3]
    {
    }
  }

  /** The query of a built URL parses back into exactly the ten parameters,
      in order and with the user's values verbatim, if and only if none of
      the three user values contains `&`.  A `=` inside a value is harmless,
      since every key ends at its first `=`. */
  lemma ParseBuiltQuery(start: string, end: string, station: string)
    ensures ParseQuery(QueryPart(BuildUrl(start, end, station))) == QueryParams(start, end, station)
        <==> '&' !in start && '&' !in end && '&' !in station
  {
    var ps := QueryParams(start, end, station);
    QueryPartOfBuildUrl(start, end, station);
    var q := RenderQuery(ps);
    if '&' !in start && '&' !in end && '&' !in station {
      QueryParamsFree(start, end, station);
      ParseRenderQuery(ps);
    }
    var pieces := Split(q, '&');
    if ParseAll(pieces) == ps {
      ValueFree(pieces[0], '&');
      ValueFree(pieces[1], '&');
      ValueFree(pieces[2], '&');
      assert ps[0].value == start && ps[1].value == end && ps[2].value == station;
    }
  }

  /** The URL carries the raw date strings: its first three parameters are
      the three inputs exactly as typed. */
  lemma UrlCarriesRawInputs(start: string, end: string, station: string)
    requires '&' !in start && '&' !in end && '&' !in station
    ensures var ps := ParseQuery(QueryPart(BuildUrl(start, end, station)));
      && |ps| == 10
      && ps[0] == Param("begin_date", start)
      && ps[1] == Param("end_date", end)
      && ps[2] == Param("station", station)
  {
    ParseBuiltQuery(start, end, station);
  }

  /** The slashed echo form of a date is never the date itself. */
  lemma EchoFormDiffers(s: string)
    ensures DateText(SplitDate(s)) != s
  {
    assert |DateText(SplitDate(s))| == |s| + 2;
  }

  /** The URL sends the dates as typed, not in the slashed form the user was
      asked to verify: with no `&` typed, neither date parameter equals the
      `year/month/day` text of its date. */
  lemma UrlDatesAreNotEchoed(start: string, end: string, station: string)
    requires '&' !in start && '&' !in end && '&' !in station
    ensures var ps := ParseQuery(QueryPart(BuildUrl(start, end, station)));
      && |ps| == 10
      && ps[0].value != DateText(SplitDate(start))
      && ps[1].value != DateText(SplitDate(end))
  {
    UrlCarriesRawInputs(start, end, station);
    EchoFormDiffers(start);
    EchoFormDiffers(end);
  }

  // ---------------------------------------------------------------------
  // The script's pure dataflow
  // ---------------------------------------------------------------------

  /** What one run of the script computes from its three inputs before any
      network or file access: the two echoed lines and the request URL. */
  datatype RunText = RunText(startEcho: string, endEcho: string, url: string)

  /** Station first, then start date, then end date, as the script prompts.
      Each echo determines its date, and (when no `&` was typed) the URL's
      first three parameters are the three inputs, unsliced. */
  function Run(station: string, startDate: string, endDate: string): (t: RunText)
    ensures t.startEcho == FormatConfirm(startDate) && t.endEcho == FormatConfirm(endDate)
    ensures ParseConfirm(t.startEcho) == Some(startDate) && ParseConfirm(t.endEcho) == Some(endDate)
    ensures t.url == BuildUrl(startDate, endDate, station)
    ensures ('&' !in startDate && '&' !in endDate && '&' !in station) ==>
      var ps := ParseQuery(QueryPart(t.url));
      |ps| == 10 && ps[0].value == startDate && ps[1].value == endDate && ps[2].value == station
  {
    ParseFormatConfirm(startDate);
    ParseFormatConfirm(endDate);
    var t := RunText(FormatConfirm(startDate), FormatConfirm(endDate), BuildUrl(startDate, endDate, station));
    if '&' !in startDate && '&' !in endDate && '&' !in station then
      UrlCarriesRawInputs(startDate, endDate, station);
      t
    else
      t
  }
}
