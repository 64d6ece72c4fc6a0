/**
 * Reading a video id out of a YouTube link (backend/shared/youtube_api.py): the three
 * link shapes `extract_video_id` knows, and the checks `validate_youtube_url` makes
 * before it asks the YouTube Data API about the video.
 *
 * The standard-library parsing it relies on is written out: `urllib.parse.urlparse`
 * (the scheme, the host part after "//", the fragment after '#', the query after '?',
 * and the `;params` cut off the path), `parse_qs` with its default settings, and the
 * regular-expression search for the "/v/" form.
 */
module YoutubeUrl {
  import opened Wrappers
  import opened Text
  import opened MetadataCodec

  // ---------------------------------------------------------------- scanning

  /** The index of the first character of `s` in `stops`, or `|s|` when there is none. */
  function Until(s: string, stops: set<char>): (k: nat)
    ensures k <= |s| && forall i :: 0 <= i < k ==> s[i] !in stops
    ensures k < |s| ==> s[k] in stops
  {
    if |s| == 0 || s[0] in stops then 0 else 1 + Until(s[1..], stops)
  }

  lemma UntilIs(s: string, stops: set<char>, k: nat)
    requires k <= |s| && forall i :: 0 <= i < k ==> s[i] !in stops
    requires k < |s| ==> s[k] in stops
    ensures Until(s, stops) == k
  {
  }

  /** `s` without any of the characters in `drop`: the `replace(c, "")` calls for each of them. */
  function Without(s: string, drop: set<char>): (r: string)
    ensures forall i :: 0 <= i < |r| ==> r[i] !in drop
    ensures |r| <= |s|
  {
    if |s| == 0 then ""
    else if s[0] in drop then Without(s[1..], drop)
    else [s[0]] + Without(s[1..], drop)
  }

  lemma {:induction false} WithoutAbsent(s: string, drop: set<char>)
    requires forall i :: 0 <= i < |s| ==> s[i] !in drop
    ensures Without(s, drop) == s
    decreases |s|
  {
    if |s| > 0 {
      WithoutAbsent(s[1..], drop);
    }
  }

  /** The C0 control characters and the space, which `urlsplit` strips from the front. */
  predicate IsC0OrSpace(c: char) {
    c <= ' '
  }

  function StripC0Left(s: string): (r: string)
    ensures |r| > 0 ==> !IsC0OrSpace(r[0])
  {
    if |s| > 0 && IsC0OrSpace(s[0]) then StripC0Left(s[1..]) else s
  }

  predicate IsAsciiLetter(c: char) {
    'a' <= c <= 'z' || 'A' <= c <= 'Z'
  }

  /** The characters a URL scheme may hold. */
  predicate IsSchemeChar(c: char) {
    IsAsciiLetter(c) || '0' <= c <= '9' || c == '+' || c == '-' || c == '.'
  }

  // ---------------------------------------------------------------- urlparse

  /** The pieces `urlparse` returns that this module reads. */
  datatype UrlParts = UrlParts(scheme: string, netloc: string, path: string, query: string, fragment: string)

  /** The schemes whose paths may carry `;params` (`urllib.parse.uses_params`). */
  predicate UsesParams(scheme: string) {
    scheme in {"", "ftp", "hdl", "prospero", "http", "imap", "https", "shttp", "rtsp", "rtsps",
               "rtspu", "sip", "sips", "mms", "sftp", "tel"}
  }

  /**
   * The text `urlsplit` works on: leading control characters and spaces stripped, and
   * every tab, carriage return and line feed removed.
   */
  function Cleaned(url: string): string {
    Without(StripC0Left(url), {'\t', '\r', '\n'})
  }

  /** A leading `scheme:` split off, the scheme lower-cased; else no scheme. */
  function SplitScheme(u: string): (string, string) {
    if ':' in u then
      var i := CharIndex(u, ':');
      if i > 0 && IsAsciiLetter(u[0]) && forall k :: 0 <= k < i ==> IsSchemeChar(u[k])
      then (LowerAscii(u[..i]), u[i + 1..])
      else ("", u)
    else ("", u)
  }

  /** A leading "//" and the host part after it, which ends at the first '/', '?' or '#'. */
  function SplitNetloc(u: string): (string, string) {
    if |u| >= 2 && u[..2] == "//" then
      var k := 2 + Until(u[2..], {'/', '?', '#'});
      (u[2..k], u[k..])
    else ("", u)
  }

  /** `s.split(c, 1)` when `c` occurs; `(s, "")` otherwise. */
  function SplitOnce(s: string, c: char): (string, string) {
    if c in s then
      var k := CharIndex(s, c);
      (s[..k], s[k + 1..])
    else (s, "")
  }

  /** `_splitparams`: the path cut at the first ';' after its last '/'. */
  function PathWithoutParams(p: string): string {
    match LastIndexOf(p, '/')
    case None => SplitOnce(p, ';').0
    case Some(last) => p[..last] + SplitOnce(p[last..], ';').0
  }

  /** `urlparse(url)`. */
  function Parse(url: string): (parts: UrlParts) {
    var (scheme, afterScheme) := SplitScheme(Cleaned(url));
    var (netloc, afterNetloc) := SplitNetloc(afterScheme);
    var (beforeFragment, fragment) := SplitOnce(afterNetloc, '#');
    var (path, query) := SplitOnce(beforeFragment, '?');
    UrlParts(scheme, netloc, if UsesParams(scheme) && ';' in path then PathWithoutParams(path) else path,
             query, fragment)
  }

  // ---------------------------------------------------------------- parse_qs

  /** `'+'` read as a space, as `parse_qsl` does before decoding. */
  function PlusAsSpace(s: string): (r: string)
    ensures |r| == |s|
  {
    if |s| == 0 then "" else [if s[0] == '+' then ' ' else s[0]] + PlusAsSpace(s[1..])
  }

  /** `unquote(s)`: each `%XX` escape of an ASCII character replaced by that character. */
  function Unquote(s: string): (r: string)
    ensures |s| > 0 ==> |r| > 0
  {
    if |s| == 0 then ""
    else if s[0] == '%' && |s| >= 3 && HexValue(s[1]).Some? && HexValue(s[2]).Some?
            && HexValue(s[1]).value * 16 + HexValue(s[2]).value < 0x80
    then [(HexValue(s[1]).value * 16 + HexValue(s[2]).value) as char] + Unquote(s[3..])
    else [s[0]] + Unquote(s[1..])
  }

  function Decoded(s: string): string {
    Unquote(PlusAsSpace(s))
  }

  /**
   * `parse_qsl` over the pieces between '&': a piece without '=' or with nothing after
   * its first '=' is dropped; name and value of the others are decoded.
   */
  function Pairs(pieces: seq<string>): (ps: seq<(string, string)>)
    ensures forall i :: 0 <= i < |ps| ==> |ps[i].1| > 0
  {
    if |pieces| == 0 then []
    else
      var (name, value) := SplitOnce(pieces[0], '=');
      (if '=' in pieces[0] && |value| > 0 then [(Decoded(name), Decoded(value))] else [])
      + Pairs(pieces[1..])
  }

  /** `parse_qs(query).get(name, [None])[0]`: the first value given for `name`. */
  function QueryValue(query: string, name: string): (v: Option<string>)
    ensures v.Some? ==> |v.value| > 0
  {
    FirstValue(if query == "" then [] else Pairs(Split(query, '&')), name)
  }

  function FirstValue(pairs: seq<(string, string)>, name: string): (v: Option<string>)
    requires forall i :: 0 <= i < |pairs| ==> |pairs[i].1| > 0
    ensures v.Some? ==> |v.value| > 0
  {
    if |pairs| == 0 then None
    else if pairs[0].0 == name then Some(pairs[0].1)
    else FirstValue(pairs[1..], name)
  }

  // ---------------------------------------------------------------- the "/v/" form

  predicate IsIdChar(c: char) {
    c != '/' && c != '?'
  }

  /** The longest prefix of `s` that holds neither '/' nor '?'. */
  function IdRun(s: string): (r: string)
    ensures |r| <= |s| && r == s[..|r|] && forall i :: 0 <= i < |r| ==> IsIdChar(r[i])
    ensures |r| < |s| ==> !IsIdChar(s[|r|])
  {
    s[..Until(s, {'/', '?'})]
  }

  /**
   * `re.search(r'/v/([^/\?]+)', url)` from index `from` on: at the first "/v/" that is
   * followed by a character other than '/' and '?', the run of such characters.
   */
  function EmbedMatch(url: string, from: nat): (r: Option<string>)
    ensures r.Some? ==> |r.value| > 0 && forall i :: 0 <= i < |r.value| ==> IsIdChar(r.value[i])
    decreases |url| - from
  {
    if from + 3 >= |url| then None
    else if url[from..from + 3] == "/v/" && IsIdChar(url[from + 3]) then Some(IdRun(url[from + 3..]))
    else EmbedMatch(url, from + 1)
  }

  // ---------------------------------------------------------------- extract_video_id

  /** `extract_video_id(url)`. */
  function ExtractVideoId(url: string): (id: Option<string>)
    ensures !Contains(url, "youtube.com") && !Contains(url, "youtu.be") ==> id.None?
    ensures Contains(url, "youtube.com") && Contains(url, "v=") ==> id == QueryValue(Parse(url).query, "v")
    ensures Contains(url, "youtube.com") && !Contains(url, "v=") && id.Some? ==>
      |id.value| > 0 && forall i :: 0 <= i < |id.value| ==> IsIdChar(id.value[i])
  {
    if Contains(url, "youtube.com") then
      if Contains(url, "v=") then QueryValue(Parse(url).query, "v")
      else if Contains(url, "/v/") then EmbedMatch(url, 0)
      else None
    else if Contains(url, "youtu.be") then
      var path := Parse(url).path;
      if path == "" then None else Some(StripChar(path, '/'))
    else None
  }

  // ---------------------------------------------------------------- validate_youtube_url

  /** Where `validate_youtube_url` stands before the API call: rejected, or asking about a video. */
  datatype PreCheck = Rejected(message: string) | LookUp(videoId: string)

  /** The checks `validate_youtube_url(url)` makes, in order, before it calls the API. */
  function Validate(url: string): (c: PreCheck)
    ensures c.LookUp? <==>
      url != "" && (Contains(url, "youtube.com") || Contains(url, "youtu.be"))
      && ExtractVideoId(url).Some? && ExtractVideoId(url).value != ""
    ensures c.LookUp? ==> Some(c.videoId) == ExtractVideoId(url)
    ensures c.Rejected? ==> c.message != ""
  {
    if url == "" then Rejected("URL must be a non-empty string")
    else if !(Contains(url, "youtube.com") || Contains(url, "youtu.be")) then Rejected("Not a valid YouTube URL")
    else
      match ExtractVideoId(url)
      case Some(id) => if id == "" then Rejected("Could not extract video ID from URL") else LookUp(id)
      case None => Rejected("Could not extract video ID from URL")
  }

  // ---------------------------------------------------------------- the YouTube Data API

  /** The metadata `validate_youtube_url` returns for a video it accepts. */
  datatype VideoData = VideoData(title: Option<string>, channel: Option<string>, duration: Option<string>,
                                 id: string, thumbnail: Option<string>)

  /**
   * What `videos().list(...).execute()` gives for the id: no items, the first item's
   * fields as read (`embeddable` absent counting as false), or the exception it raises.
   */
  datatype ApiAnswer =
    | NoItems
    | Item(embeddable: bool, privacyStatus: Option<string>, title: Option<string>, channelTitle: Option<string>,
           duration: Option<string>, mediumThumbnail: Option<string>)
    | ApiHttpError(text: string)
    | ApiOtherError(text: string)

  /** The verdict on the API's answer about `videoId`. */
  function ReadAnswer(videoId: string, answer: ApiAnswer): (r: Result<VideoData>)
    ensures r.Ok? <==> answer.Item? && answer.embeddable && answer.privacyStatus != Some("private")
    ensures r.Ok? ==> r.value == VideoData(answer.title, answer.channelTitle, answer.duration, videoId, answer.mediumThumbnail)
    ensures r.Err? ==> r.message != ""
  {
    match answer
    case NoItems => Err("Video not found or is unavailable")
    case Item(embeddable, privacy, title, channel, duration, thumbnail) =>
      if !embeddable then Err("This video does not allow embedding")
      else if privacy == Some("private") then Err("This video is private")
      else Ok(VideoData(title, channel, duration, videoId, thumbnail))
    case ApiHttpError(text) => Err("YouTube API error: " + text)
    case ApiOtherError(text) => Err("Error validating YouTube URL: " + text)
  }

  /**
   * `validate_youtube_url(url)`, with `answer` what the API says about the extracted id:
   * the video's metadata, or the message of the first check that fails. The API is asked
   * only once the link itself has passed.
   */
  function ValidateYoutubeUrl(url: string, answer: ApiAnswer): (r: Result<VideoData>)
    ensures r.Ok? <==> Validate(url).LookUp? && ReadAnswer(Validate(url).videoId, answer).Ok?
    ensures r.Ok? ==> Some(r.value.id) == ExtractVideoId(url) && r.value.id != ""
    ensures Validate(url).Rejected? ==> r == Err(Validate(url).message)
    ensures r.Err? ==> r.message != ""
  {
    match Validate(url)
    case Rejected(message) => Err(message)
    case LookUp(videoId) => ReadAnswer(videoId, answer)
  }

  // ---------------------------------------------------------------- the link shapes

  /** The characters of a YouTube video id. */
  predicate IsVideoIdChar(c: char) {
    IsAsciiLetter(c) || '0' <= c <= '9' || c == '-' || c == '_'
  }

  predicate IsVideoId(id: string) {
    |id| > 0 && forall i :: 0 <= i < |id| ==> IsVideoIdChar(id[i])
  }

  /** No tab, carriage return or line feed: the characters `urlsplit` deletes. */
  predicate Unbroken(s: string) {
    forall i :: 0 <= i < |s| ==> s[i] !in {'\t', '\r', '\n'}
  }

  /** An "https" link to `host` with the given path, query and fragment. */
  function HttpsUrl(host: string, path: string): string {
    "https://" + host + path
  }

  /** "https://www.youtube.com/watch?v=<id>" followed by more parameters or a fragment. */
  function WatchLink(id: string, tail: string): string {
    HttpsUrl("www.youtube.com", "/watch" + "?" + ("v=" + id + tail))
  }

  /** "https://youtu.be/<id>". */
  function ShortLink(id: string): string {
    HttpsUrl("youtu.be", "/" + id)
  }

  /** "https://www.youtube.com/v/<id>" followed by `rest`. */
  function EmbedLink(id: string, rest: string): string {
    HttpsUrl("www.youtube.com", "/v/" + id + rest)
  }

  /** A video id holds none of the characters the parsing above looks for. */
  lemma VideoIdAvoids(id: string)
    requires IsVideoId(id)
    ensures '/' !in id && '?' !in id && '#' !in id && '&' !in id && '=' !in id
    ensures '+' !in id && '%' !in id && ';' !in id && '.' !in id && ':' !in id
    ensures Unbroken(id) && !IsC0OrSpace(id[0])
  {
  }

  lemma UnbrokenAppend(a: string, b: string)
    requires Unbroken(a) && Unbroken(b)
    ensures Unbroken(a + b)
  {
    assert forall i :: |a| <= i < |a + b| ==> (a + b)[i] == b[i - |a|];
  }

  lemma ContainsItself(s: string)
    ensures Contains(s, s)
  {
    assert s[0..|s|] == s;
    ContainsWhenOccurs(s, s, 0);
  }

  /** What a text contains, a longer text holding it contains too. */
  lemma ContainsWithin(pre: string, s: string, post: string, sub: string)
    requires Contains(s, sub)
    ensures Contains(pre + s, sub) && Contains(s + post, sub)
  {
    var i := IndexOf(s, sub).value;
    assert (pre + s)[|pre| + i..|pre| + i + |sub|] == s[i..i + |sub|];
    ContainsWhenOccurs(pre + s, sub, |pre| + i);
    assert (s + post)[i..i + |sub|] == s[i..i + |sub|];
    ContainsWhenOccurs(s + post, sub, i);
  }

  /** A text without the second character of `pat` does not contain `pat`. */
  lemma SecondCharAbsent(s: string, pat: string)
    requires |pat| >= 2 && pat[1] !in s
    ensures !Contains(s, pat)
  {
    forall j: nat
      ensures !OccursAt(s, pat, j)
    {
      if j + |pat| <= |s| {
        assert s[j..j + |pat|][1] == s[j + 1];
      }
    }
  }

  /** With a single '.', "youtube.com" occurs only if the seven characters before the '.' are "youtube". */
  lemma NoYoutubeCom(a: string, b: string)
    requires '.' !in a && '.' !in b
    requires |a| >= 7 && a[|a| - 7..] != "youtube"
    ensures !Contains(a + "." + b, "youtube.com")
  {
    var s := a + "." + b;
    forall j: nat
      ensures !OccursAt(s, "youtube.com", j)
    {
      if j + 11 <= |s| {
        var w := s[j..j + 11];
        assert w[7] == s[j + 7];
        if j + 7 < |a| {
          assert s[j + 7] == a[j + 7];
        } else if j + 7 > |a| {
          assert s[j + 7] == b[j + 7 - |a| - 1];
        } else {
          assert w[..7] == a[|a| - 7..];
        }
      }
    }
  }

  /** Text without the characters `urlsplit` removes, after a first character it does not strip, is left as it is. */
  lemma CleanedUnchanged(url: string)
    requires |url| > 0 && !IsC0OrSpace(url[0]) && Unbroken(url)
    ensures Cleaned(url) == url
  {
    WithoutAbsent(url, {'\t', '\r', '\n'});
  }

  /** An "https:" link: the scheme and the text after it. */
  lemma HttpsScheme(rest: string)
    ensures SplitScheme("https:" + rest) == ("https", rest)
  {
    var u := "https:" + rest;
    assert u[..5] == "https" && u[5] == ':';
    CharIndexIs(u, ':', 5);
    assert forall k :: 0 <= k < 5 ==> IsSchemeChar(u[k]);
    assert u[6..] == rest;
    assert LowerAscii("https") == "https";
  }

  /** "//host" followed by a path: the host and the path. */
  lemma HostThenPath(host: string, rest: string)
    requires '/' !in host && '?' !in host && '#' !in host
    requires |rest| > 0 && rest[0] == '/'
    ensures SplitNetloc("//" + host + rest) == (host, rest)
  {
    var u := "//" + host + rest;
    assert u[2..] == host + rest;
    UntilIs(u[2..], {'/', '?', '#'}, |host|);
    assert u[2..2 + |host|] == host;
    assert u[2 + |host|..] == rest;
  }

  /** Cutting at the first `c`, where the text before it holds none. */
  lemma SplitOnceAt(head: string, c: char, rest: string)
    requires c !in head
    ensures SplitOnce(head + [c] + rest, c) == (head, rest)
  {
    var s := head + [c] + rest;
    assert s[|head|] == c && s[..|head|] == head;
    CharIndexIs(s, c, |head|);
    assert s[|head| + 1..] == rest;
  }

  /** Cutting at the first `c` of `pre + t`, where `pre` holds none, cuts `t`. */
  lemma SplitOnceAfter(pre: string, t: string, c: char)
    requires c !in pre
    ensures SplitOnce(pre + t, c).0 == pre + SplitOnce(t, c).0
  {
    if c in t {
      var k := CharIndex(t, c);
      assert (pre + t)[|pre| + k] == c;
      assert (pre + t)[..|pre| + k] == pre + t[..k];
      CharIndexIs(pre + t, c, |pre| + k);
    } else {
      assert c !in pre + t;
    }
  }

  lemma {:induction false} PlusAbsent(s: string)
    requires '+' !in s
    ensures PlusAsSpace(s) == s
    decreases |s|
  {
    if |s| > 0 {
      PlusAbsent(s[1..]);
    }
  }

  lemma {:induction false} PercentAbsent(s: string)
    requires '%' !in s
    ensures Unquote(s) == s
    decreases |s|
  {
    if |s| > 0 {
      PercentAbsent(s[1..]);
    }
  }

  /** Text without '+' or '%' decodes to itself. */
  lemma PlainDecoded(s: string)
    requires '+' !in s && '%' !in s
    ensures Decoded(s) == s
  {
    PlusAbsent(s);
    PercentAbsent(s);
  }

  /** The parts of an "https" link whose path starts with '/'. */
  lemma HttpsLink(host: string, path: string)
    requires |path| > 0 && path[0] == '/' && Unbroken(host) && Unbroken(path)
    requires '/' !in host && '?' !in host && '#' !in host
    ensures var p := Parse(HttpsUrl(host, path));
      var (beforeQuery, query) := SplitOnce(SplitOnce(path, '#').0, '?');
      p.scheme == "https" && p.netloc == host && p.query == query
      && (';' !in beforeQuery ==> p.path == beforeQuery)
  {
    var url := HttpsUrl(host, path);
    assert Unbroken("https://");
    UnbrokenAppend("https://", host);
    UnbrokenAppend("https://" + host, path);
    CleanedUnchanged(url);
    assert url == "https:" + ("//" + host + path);
    HttpsScheme("//" + host + path);
    HostThenPath(host, path);
  }

  /** A path and a query: the query is cut at the first '#'. */
  lemma RouteAndQuery(route: string, q: string)
    requires '?' !in route && '#' !in route
    ensures SplitOnce(SplitOnce(route + "?" + q, '#').0, '?') == (route, SplitOnce(q, '#').0)
  {
    assert '#' !in route + "?";
    SplitOnceAfter(route + "?", q, '#');
    SplitOnceAt(route, '?', SplitOnce(q, '#').0);
  }

  /** The query of a watch link: from the `v` parameter up to any fragment. */
  lemma WatchQuery(id: string, tail: string)
    requires IsVideoId(id) && (tail == "" || tail[0] == '&') && Unbroken(tail)
    ensures var more := SplitOnce(tail, '#').0;
      (more == "" || more[0] == '&') && Parse(WatchLink(id, tail)).query == "v=" + id + more
  {
    VideoIdAvoids(id);
    PlainHosts();
    var q := "v=" + id + tail;
    assert Unbroken("v=");
    UnbrokenAppend("v=", id);
    UnbrokenAppend("v=" + id, tail);
    assert Unbroken("/watch");
    LinkQuery("www.youtube.com", "/watch", q);
    VParameterBeforeFragment(id, tail);
  }

  /** Cutting `v=<id>` and a tail at the first '#' cuts the tail only. */
  lemma VParameterBeforeFragment(id: string, tail: string)
    requires IsVideoId(id) && (tail == "" || tail[0] == '&')
    ensures var more := SplitOnce(tail, '#').0;
      (more == "" || more[0] == '&') && SplitOnce("v=" + id + tail, '#').0 == "v=" + id + more
  {
    VideoIdAvoids(id);
    assert '#' !in "v=" + id;
    SplitOnceAfter("v=" + id, tail, '#');
    var more := SplitOnce(tail, '#').0;
    if more != "" {
      assert '#' in tail ==> CharIndex(tail, '#') > 0;
      assert more[0] == tail[0];
    }
  }

  /** A query that starts with `v=<id>` gives back the id, whatever parameters follow it. */
  lemma FirstParameterIsV(id: string, more: string)
    requires IsVideoId(id) && (more == "" || more[0] == '&')
    ensures QueryValue("v=" + id + more, "v") == Some(id)
  {
    FirstPieceIsV(id, more);
    VFirstPair(Split("v=" + id + more, '&'), id);
  }

  /** The first piece between '&' of a query that starts with `v=<id>` is `v=<id>`. */
  lemma FirstPieceIsV(id: string, more: string)
    requires IsVideoId(id) && (more == "" || more[0] == '&')
    ensures Split("v=" + id + more, '&')[0] == "v=" + id
  {
    VideoIdAvoids(id);
    var first := "v=" + id;
    assert '&' !in first;
    if more == "" {
      assert first + more == first;
    } else {
      assert first + more == first + ['&'] + more[1..];
      SplitAt(first, more[1..], '&');
    }
  }

  /** Pieces whose first is `v=<id>` give `id` as the first value of `v`. */
  lemma VFirstPair(pieces: seq<string>, id: string)
    requires IsVideoId(id) && |pieces| > 0 && pieces[0] == "v=" + id
    ensures FirstValue(Pairs(pieces), "v") == Some(id)
  {
    VideoIdAvoids(id);
    assert pieces[0] == "v" + ['='] + id;
    SplitOnceAt("v", '=', id);
    PlainDecoded(id);
    PlainDecoded("v");
    assert Pairs(pieces) == [("v", id)] + Pairs(pieces[1..]);
  }

  /** A YouTube link with a `v` parameter: the id is read from its query alone. */
  lemma FromQuery(url: string, query: string)
    requires Contains(url, "youtube.com") && Contains(url, "v=") && Parse(url).query == query
    ensures ExtractVideoId(url) == QueryValue(query, "v")
  {
  }

  /** A link to www.youtube.com names YouTube, whatever its path. */
  lemma YoutubeHost(path: string)
    ensures Contains(HttpsUrl("www.youtube.com", path), "youtube.com")
  {
    var host := "www.youtube.com";
    assert host[4..15] == "youtube.com";
    ContainsWhenOccurs(host, "youtube.com", 4);
    ContainsWithin("https://", host, path, "youtube.com");
    ContainsWithin("", "https://" + host, path, "youtube.com");
  }

  /** A link whose path contains `sub` contains it too. */
  lemma InPath(host: string, path: string, sub: string)
    requires Contains(path, sub)
    ensures Contains(HttpsUrl(host, path), sub)
  {
    ContainsWithin("https://" + host, path, "", sub);
  }

  lemma Assoc(a: string, b: string, c: string)
    ensures a + b + c == a + (b + c)
  {
  }

  /** A watch link names YouTube and has a `v` parameter. */
  lemma WatchLinkContains(id: string, tail: string)
    ensures Contains(WatchLink(id, tail), "youtube.com") && Contains(WatchLink(id, tail), "v=")
  {
    var q := "v=" + id + tail;
    YoutubeHost("/watch" + "?" + q);
    ContainsItself("v=");
    ContainsWithin("", "v=", id, "v=");
    ContainsWithin("", "v=" + id, tail, "v=");
    ContainsWithin("/watch" + "?", q, "", "v=");
    InPath("www.youtube.com", "/watch" + "?" + q, "v=");
  }

  /** A watch link gives back the id in its `v` parameter, whatever parameters or fragment follow. */
  lemma WatchLinkRoundTrip(id: string, tail: string)
    requires IsVideoId(id) && (tail == "" || tail[0] == '&') && Unbroken(tail)
    ensures ExtractVideoId(WatchLink(id, tail)) == Some(id)
    ensures Validate(WatchLink(id, tail)) == LookUp(id)
  {
    WatchLinkContains(id, tail);
    WatchQuery(id, tail);
    var more := SplitOnce(tail, '#').0;
    FirstParameterIsV(id, more);
    FromQuery(WatchLink(id, tail), "v=" + id + more);
  }

  /** A youtu.be link that does not name youtube.com: the id is its path without slashes. */
  lemma FromPath(url: string, path: string)
    requires !Contains(url, "youtube.com") && Contains(url, "youtu.be") && Parse(url).path == path
    ensures ExtractVideoId(url) == if path == "" then None else Some(StripChar(path, '/'))
  {
  }

  /** The two hosts are plain names: no separators, no characters `urlsplit` deletes. */
  lemma PlainHosts()
    ensures forall host :: host in {"youtu.be", "www.youtube.com"} ==>
      Unbroken(host) && '/' !in host && '?' !in host && '#' !in host
  {
    assert Unbroken("youtu.be");
    assert Unbroken("www.youtube.com");
  }

  /** A short link does not name youtube.com but names youtu.be. */
  lemma ShortLinkNames(id: string)
    requires '.' !in id
    ensures !Contains(ShortLink(id), "youtube.com") && Contains(ShortLink(id), "youtu.be")
  {
    assert ShortLink(id) == "https://youtu" + "." + ("be/" + id);
    NoYoutubeCom("https://youtu", "be/" + id);
    ContainsItself("youtu.be");
    ContainsWithin("https://", "youtu.be", "", "youtu.be");
    ContainsWithin("", "https://" + "youtu.be", "/" + id, "youtu.be");
  }

  /** The path of "https://youtu.be/" followed by `id`. */
  lemma ShortLinkPath(id: string)
    requires '#' !in id && '?' !in id && ';' !in id && Unbroken(id)
    ensures Parse(ShortLink(id)).path == "/" + id
  {
    PlainHosts();
    assert Unbroken("/");
    UnbrokenAppend("/", id);
    HttpsLink("youtu.be", "/" + id);
    assert '#' !in "/" + id && '?' !in "/" + id && ';' !in "/" + id;
  }

  /** What the parsing sees in "https://youtu.be/" followed by `id`. */
  lemma ShortLinkParts(id: string)
    requires '.' !in id && '#' !in id && '?' !in id && ';' !in id && Unbroken(id)
    ensures !Contains(ShortLink(id), "youtube.com") && Contains(ShortLink(id), "youtu.be")
    ensures Parse(ShortLink(id)).path == "/" + id
  {
    ShortLinkNames(id);
    ShortLinkPath(id);
  }

  /** A short link gives back the id after the host. */
  lemma ShortLinkRoundTrip(id: string)
    requires IsVideoId(id)
    ensures ExtractVideoId(ShortLink(id)) == Some(id)
    ensures Validate(ShortLink(id)) == LookUp(id)
  {
    VideoIdAvoids(id);
    ShortLinkParts(id);
    FromPath(ShortLink(id), "/" + id);
    assert ("/" + id)[1..] == id;
  }

  /** A short link with nothing after the host yields an empty id, which is rejected. */
  lemma EmptyShortLinkRejected()
    ensures ExtractVideoId(ShortLink("")) == Some("")
    ensures Validate(ShortLink("")) == Rejected("Could not extract video ID from URL")
  {
    assert Unbroken("");
    ShortLinkParts("");
    FromPath(ShortLink(""), "/" + "");
    assert "/" + "" == "/";
  }

  /** The "/v/" search passes over positions where no 'v' follows. */
  lemma {:induction false} EmbedSkip(url: string, from: nat, to: nat)
    requires from <= to && to + 3 < |url|
    requires forall g :: from < g <= to ==> url[g] != 'v'
    ensures EmbedMatch(url, from) == EmbedMatch(url, to)
    decreases (to as int) - (from as int)
  {
    if from < to {
      assert url[from..from + 3][1] == url[from + 1];
      EmbedSkip(url, from + 1, to);
    }
  }

  /** The "/v/" search of a www.youtube.com link starts its work at the path. */
  lemma EmbedSearchAtPath(p: string)
    requires |p| > 3 && p[0] == '/'
    ensures EmbedMatch(HttpsUrl("www.youtube.com", p), 0) == EmbedMatch(HttpsUrl("www.youtube.com", p), 23)
  {
    var a := "https://" + "www.youtube.com";
    var url := a + p;
    assert |a| == 23 && 'v' !in a;
    forall g | 0 < g <= |a|
      ensures url[g] != 'v'
    {
      if g < |a| {
        assert url[g] == a[g];
      } else {
        assert url[g] == p[0];
      }
    }
    EmbedSkip(url, 0, |a|);
  }

  /** The "/v/" run of a video id followed by nothing or a '?' part is the id. */
  lemma IdRunOfId(id: string, rest: string)
    requires IsVideoId(id) && (rest == "" || rest[0] == '?')
    ensures IdRun(id + rest) == id
  {
    VideoIdAvoids(id);
    UntilIs(id + rest, {'/', '?'}, |id|);
    assert (id + rest)[..|id|] == id;
  }

  /** In "https://www.youtube.com/v/<id>" followed by a '?' part, the "/v/" search finds the id. */
  lemma EmbedFinds(id: string, rest: string)
    requires IsVideoId(id) && (rest == "" || rest[0] == '?')
    ensures EmbedMatch(EmbedLink(id, rest), 0) == Some(id)
  {
    var p := "/v/" + id + rest;
    var url := HttpsUrl("www.youtube.com", p);
    EmbedSearchAtPath(p);
    assert url[23..26] == "/v/" && url[26] == id[0];
    assert url[26..] == id + rest;
    IdRunOfId(id, rest);
  }

  /** A link that names YouTube, has no `v=` and has "/v/": the id comes from the "/v/" search. */
  lemma FromEmbed(url: string)
    requires Contains(url, "youtube.com") && !Contains(url, "v=") && Contains(url, "/v/")
    ensures ExtractVideoId(url) == EmbedMatch(url, 0)
  {
  }

  /** An embed link names YouTube and "/v/" and holds no '='. */
  lemma EmbedLinkNames(id: string)
    requires IsVideoId(id)
    ensures Contains(EmbedLink(id, ""), "youtube.com") && Contains(EmbedLink(id, ""), "/v/")
    ensures !Contains(EmbedLink(id, ""), "v=")
  {
    VideoIdAvoids(id);
    var path := "/v/" + id + "";
    YoutubeHost(path);
    ContainsItself("/v/");
    ContainsWithin("", "/v/", id, "/v/");
    ContainsWithin("", "/v/" + id, "", "/v/");
    InPath("www.youtube.com", path, "/v/");
    EmbedLinkHasNoV(id);
  }

  lemma EmbedLinkHasNoV(id: string)
    requires '=' !in id
    ensures !Contains(EmbedLink(id, ""), "v=")
  {
    assert '=' !in "https://" + "www.youtube.com";
    assert '=' !in "/v/" + id + "";
    SecondCharAbsent(EmbedLink(id, ""), "v=");
  }

  /** An embed link gives back the id after "/v/". */
  lemma EmbedLinkRoundTrip(id: string)
    requires IsVideoId(id)
    ensures ExtractVideoId(EmbedLink(id, "")) == Some(id)
    ensures Validate(EmbedLink(id, "")) == LookUp(id)
  {
    EmbedLinkNames(id);
    FromEmbed(EmbedLink(id, ""));
    EmbedFinds(id, "");
  }

  /** An embed link followed by "?v=" names YouTube and has a `v` parameter. */
  lemma EmptyVParameterNames(id: string)
    ensures Contains(EmbedLink(id, "?" + "v="), "youtube.com") && Contains(EmbedLink(id, "?" + "v="), "v=")
  {
    var path := "/v/" + id + ("?" + "v=");
    YoutubeHost(path);
    ContainsItself("v=");
    ContainsWithin("?", "v=", "", "v=");
    ContainsWithin("/v/" + id, "?" + "v=", "", "v=");
    InPath("www.youtube.com", path, "v=");
  }

  /** A link whose path is a route, a '?' and a query: the query is read up to any fragment. */
  lemma LinkQuery(host: string, route: string, q: string)
    requires Unbroken(host) && '/' !in host && '?' !in host && '#' !in host
    requires |route| > 0 && route[0] == '/' && '?' !in route && '#' !in route && Unbroken(route)
    requires Unbroken(q)
    ensures Parse(HttpsUrl(host, route + "?" + q)).query == SplitOnce(q, '#').0
  {
    assert Unbroken("?");
    UnbrokenAppend(route, "?");
    UnbrokenAppend(route + "?", q);
    HttpsLink(host, route + "?" + q);
    RouteAndQuery(route, q);
  }

  /** The query of an embed link followed by "?v=" is "v=". */
  lemma EmptyVParameterQuery(id: string)
    requires IsVideoId(id)
    ensures Parse(EmbedLink(id, "?" + "v=")).query == "v="
  {
    VideoIdAvoids(id);
    PlainHosts();
    var route := "/v/" + id;
    assert Unbroken("/v/") && Unbroken("v=");
    UnbrokenAppend("/v/", id);
    assert '?' !in route && '#' !in route && route[0] == '/';
    LinkQuery("www.youtube.com", route, "v=");
    Assoc(route, "?", "v=");
    assert SplitOnce("v=", '#') == ("v=", "");
  }

  /** The query "v=" gives no value for `v`: `parse_qs` drops empty values. */
  lemma EmptyVHasNoValue()
    ensures QueryValue("v=", "v") == None
  {
    assert Split("v=", '&') == ["v="];
    assert "v" + ['='] + "" == "v=";
    SplitOnceAt("v", '=', "");
    assert Pairs(["v="]) == [];
  }

  /**
   * A `v` parameter takes precedence over the "/v/" form, even when it is empty: the
   * "/v/" search would find the id, but the empty parameter is all that is read, and
   * the link is rejected.
   */
  lemma EmptyVParameterWins(id: string)
    requires IsVideoId(id)
    ensures EmbedMatch(EmbedLink(id, "?" + "v="), 0) == Some(id)
    ensures ExtractVideoId(EmbedLink(id, "?" + "v=")) == None
    ensures Validate(EmbedLink(id, "?" + "v=")) == Rejected("Could not extract video ID from URL")
  {
    EmptyVParameterNames(id);
    EmptyVParameterQuery(id);
    EmptyVHasNoValue();
    FromQuery(EmbedLink(id, "?" + "v="), "v=");
    EmbedFinds(id, "?" + "v=");
  }
}
