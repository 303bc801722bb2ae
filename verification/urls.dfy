/** The extension normaliser `get_image_extension`: the path component of a
    URL as `urllib.parse.urlparse` computes it, the suffix that
    `os.path.splitext` takes from that path, and the lower-cased whitelist
    check with `.jpg` as the fallback.

    The path follows CPython 3.12's `urlsplit`/`urlparse`: leading C0 controls
    and spaces are stripped, tab/CR/LF are removed, a `scheme:` prefix and a
    `//netloc` are split off, then the `#fragment` and the `?query`, and for
    the schemes that use them the `;params` of the last segment. */
module Urls {
  import opened Wrappers
  import opened Text

  // ----- urlparse(url).path -----

  predicate IsC0ControlOrSpace(c: char) {
    c <= ' '
  }

  /** `url.lstrip(_WHATWG_C0_CONTROL_OR_SPACE)`. */
  function LStripControls(s: string): (r: string)
    ensures forall x :: x in r ==> x in s
    ensures |r| > 0 ==> !IsC0ControlOrSpace(r[0])
  {
    if |s| > 0 && IsC0ControlOrSpace(s[0]) then LStripControls(s[1..]) else s
  }

  predicate IsUnsafeUrlChar(c: char) {
    c == '\t' || c == '\r' || c == '\n'
  }

  /** Removal of `_UNSAFE_URL_BYTES_TO_REMOVE` (tab, CR, LF) anywhere in the URL. */
  function RemoveUnsafe(s: string): (r: string)
    ensures forall x :: x in r ==> x in s && !IsUnsafeUrlChar(x)
  {
    if |s| == 0 then []
    else (if IsUnsafeUrlChar(s[0]) then [] else [s[0]]) + RemoveUnsafe(s[1..])
  }

  predicate IsSchemeChar(c: char) {
    IsAsciiLetter(c) || IsDigit(c) || c == '+' || c == '-' || c == '.'
  }

  /** Splits `scheme:` off the front: the text before the first `:` is a
      scheme when it starts with an ASCII letter and consists of scheme
      characters only. Returns the lower-cased scheme and the remainder. */
  function SplitScheme(url: string): (string, string) {
    var i := IndexOf(url, ':');
    if 0 < i < |url| && IsAsciiLetter(url[0]) && (forall k :: 0 <= k < i ==> IsSchemeChar(url[k]))
    then (AsciiLower(url[..i]), url[i + 1..])
    else ("", url)
  }

  /** The characters that end a network location. */
  const NetlocEnd: set<char> := {'/', '?', '#'}

  /** What follows the network location: when the remainder starts with
      `//`, the netloc runs up to the first `/`, `?` or `#`. */
  function AfterNetloc(rest: string): (r: string)
    ensures forall x :: x in r ==> x in rest
  {
    if |rest| >= 2 && rest[..2] == "//" then
      var delim := 2 + IndexOfAny(rest[2..], NetlocEnd);
      rest[delim..]
    else rest
  }

  /** `urllib.parse.uses_params`: the schemes whose last path segment may
      carry `;params`. */
  const UsesParams: set<string> := {"", "ftp", "hdl", "prospero", "http", "imap", "https", "shttp",
                                    "rtsp", "rtsps", "rtspu", "sip", "sips", "mms", "sftp", "tel"}

  /** `_splitparams(path)[0]`: the path up to the first `;` at or after the
      last `/` (or anywhere, when there is no `/`). */
  function StripParams(path: string): (r: string)
    ensures r <= path
  {
    var slash := RFind(path, '/');
    var start := if slash < 0 then 0 else slash;
    path[..start + IndexOf(path[start..], ';')]
  }

  /** The URL after the leading-control strip and the tab/CR/LF removal. */
  function Cleaned(url: string): string {
    RemoveUnsafe(LStripControls(url))
  }

  /** The path that the text after `scheme:` carries. */
  function PathAfterScheme(scheme: string, rest: string): (r: string)
    ensures '?' !in r && '#' !in r
    ensures forall x :: x in r ==> x in rest
  {
    var path := CutAt(CutAt(AfterNetloc(rest), '#'), '?');
    if scheme in UsesParams then StripParams(path) else path
  }

  /** `urlparse(url).path`. */
  function UrlPath(url: string): (r: string)
    // The fragment and the query are split off before the path is taken.
    ensures '?' !in r && '#' !in r
    // The path is made of characters of the URL, never tab, CR or LF.
    ensures forall x :: x in r ==> x in url && !IsUnsafeUrlChar(x)
  {
    var parts := SplitScheme(Cleaned(url));
    SchemeRestChars(Cleaned(url));
    PathAfterScheme(parts.0, parts.1)
  }

  lemma SchemeRestChars(url: string)
    ensures forall x :: x in SplitScheme(url).1 ==> x in url
  {
    var i := IndexOf(url, ':');
    if 0 < i < |url| && IsAsciiLetter(url[0]) && (forall k :: 0 <= k < i ==> IsSchemeChar(url[k])) {
      assert forall x :: x in url[i + 1..] ==> x in url;
    }
  }

  // ----- os.path.splitext(path)[1] -----

  /** The suffix `os.path.splitext` (POSIX) returns: from the last `.` on,
      provided that dot lies in the last path segment and that segment has a
      character other than `.` before it; otherwise empty. */
  function PathExtension(path: string): (ext: string)
    ensures ext == [] || (ext[0] == '.' && '.' !in ext[1..] && '/' !in ext && EndsWith(path, ext))
  {
    var sep := RFind(path, '/');
    var dot := RFind(path, '.');
    if dot > sep && exists k :: sep < k < dot && path[k] != '.' then
      assert forall j :: dot < j < |path| ==> path[j] != '.' && path[j] != '/';
      path[dot..]
    else []
  }

  // ----- get_image_extension -----

  const AllowedExtensions: seq<string> := [".jpg", ".jpeg", ".png", ".webp"]
  const DefaultExtension: string := ".jpg"

  /** The whitelist step: the lower-cased suffix when it is one of the four
      accepted extensions, `.jpg` otherwise. Lower-casing only ASCII letters
      decides membership exactly as `str.lower()` would, since no other
      character lower-cases to a character of these four extensions. */
  function NormalizeExtension(ext: string): (r: string)
    ensures r in AllowedExtensions
    ensures AsciiLower(ext) in AllowedExtensions ==> r == AsciiLower(ext)
    ensures AsciiLower(ext) !in AllowedExtensions ==> r == DefaultExtension
  {
    if ext != [] && AsciiLower(ext) in AllowedExtensions then AsciiLower(ext) else DefaultExtension
  }

  /** `get_image_extension(url)`. */
  function ImageExtension(url: string): (r: string)
    ensures r in AllowedExtensions
  {
    NormalizeExtension(PathExtension(UrlPath(url)))
  }

  // ----- Properties -----

  /** Normalising is idempotent, and an accepted extension is its own normal
      form: normalising never turns one accepted extension into another. */
  lemma NormalizeIsIdempotent(ext: string)
    ensures NormalizeExtension(NormalizeExtension(ext)) == NormalizeExtension(ext)
    ensures ext in AllowedExtensions ==> NormalizeExtension(ext) == ext
  {
    var r := NormalizeExtension(ext);
    assert AsciiLower(".jpg") == ".jpg";
    assert AsciiLower(".jpeg") == ".jpeg";
    assert AsciiLower(".png") == ".png";
    assert AsciiLower(".webp") == ".webp";
  }

  /** The check is case-insensitive: an extension and its lower-cased form
      normalise alike. */
  lemma NormalizeIgnoresCase(ext: string)
    ensures NormalizeExtension(AsciiLower(ext)) == NormalizeExtension(ext)
  {
    var low := AsciiLower(ext);
    assert AsciiLower(low) == low;
  }

  lemma {:induction false} LStripAppend(a: string, b: string)
    requires |b| > 0 && !IsC0ControlOrSpace(b[0])
    ensures LStripControls(a + b) == LStripControls(a) + b
    decreases |a|
  {
    if |a| > 0 {
      assert (a + b)[0] == a[0];
      assert (a + b)[1..] == a[1..] + b;
      LStripAppend(a[1..], b);
    } else {
      assert a + b == b;
    }
  }

  lemma {:induction false} RemoveUnsafeAppend(a: string, b: string)
    ensures RemoveUnsafe(a + b) == RemoveUnsafe(a) + RemoveUnsafe(b)
    decreases |a|
  {
    if |a| == 0 {
      assert a + b == b;
    } else {
      assert (a + b)[0] == a[0];
      assert (a + b)[1..] == a[1..] + b;
      RemoveUnsafeAppend(a[1..], b);
    }
  }

  predicate IsQueryOrFragmentMark(c: char) {
    c == '?' || c == '#'
  }

  predicate NoQueryOrFragment(s: string) {
    '?' !in s && '#' !in s
  }

  /** A query string or a fragment: text that begins with `?` or `#`. */
  predicate IsQueryOrFragment(tail: string) {
    |tail| > 0 && IsQueryOrFragmentMark(tail[0])
  }

  lemma CleanedAppend(u: string, tail: string)
    requires NoQueryOrFragment(u) && IsQueryOrFragment(tail)
    ensures Cleaned(u + tail) == Cleaned(u) + RemoveUnsafe(tail)
    ensures NoQueryOrFragment(Cleaned(u)) && IsQueryOrFragment(RemoveUnsafe(tail))
  {
    LStripAppend(u, tail);
    RemoveUnsafeAppend(LStripControls(u), tail);
  }

  lemma SplitSchemeAppend(u: string, tail: string)
    requires NoQueryOrFragment(u) && IsQueryOrFragment(tail)
    ensures SplitScheme(u + tail).0 == SplitScheme(u).0
    ensures SplitScheme(u + tail).1 == SplitScheme(u).1 + tail
    ensures NoQueryOrFragment(SplitScheme(u).1)
  {
    var t := u + tail;
    IndexOfAnyAppend(u, tail, {':'});
    var i := IndexOf(t, ':');
    if IndexOf(u, ':') < |u| {
      assert t[..i] == u[..i];
      assert t[i + 1..] == u[i + 1..] + tail;
      if 0 < i {
        assert t[0] == u[0];
      }
      assert forall x :: x in u[i + 1..] ==> x in u;
    } else {
      assert t[|u|] == tail[0] && !IsSchemeChar(tail[0]);
    }
  }

  lemma AfterNetlocAppend(r: string, tail: string)
    requires NoQueryOrFragment(r) && IsQueryOrFragment(tail)
    ensures AfterNetloc(r + tail) == AfterNetloc(r) + tail
    ensures NoQueryOrFragment(AfterNetloc(r))
  {
    if |r| >= 2 && r[..2] == "//" {
      NetlocAppend(r, tail);
    } else {
      NoNetlocAppend(r, tail);
    }
  }

  /** Without a leading `//` there is no netloc, before or after appending. */
  lemma NoNetlocAppend(r: string, tail: string)
    requires IsQueryOrFragment(tail)
    requires !(|r| >= 2 && r[..2] == "//")
    ensures !(|r + tail| >= 2 && (r + tail)[..2] == "//")
  {
    var t := r + tail;
    if |r| >= 2 {
      assert t[..2] == r[..2];
    } else if |t| >= 2 {
      assert t[..2][|r|] == tail[0];
    }
  }

  lemma NetlocAppend(r: string, tail: string)
    requires NoQueryOrFragment(r) && IsQueryOrFragment(tail)
    requires |r| >= 2
    ensures (r + tail)[2..] == r[2..] + tail
    ensures 2 + IndexOfAny((r + tail)[2..], NetlocEnd) == 2 + IndexOfAny(r[2..], NetlocEnd)
    ensures var d := 2 + IndexOfAny(r[2..], NetlocEnd);
      (r + tail)[d..] == r[d..] + tail && NoQueryOrFragment(r[d..])
  {
    assert (r + tail)[2..] == r[2..] + tail;
    IndexOfAnyAppend(r[2..], tail, NetlocEnd);
    var d := 2 + IndexOfAny(r[2..], NetlocEnd);
    assert (r + tail)[d..] == r[d..] + tail;
    assert forall x :: x in r[d..] ==> x in r;
  }

  lemma PathIgnoresQuery(a: string, tail: string)
    requires NoQueryOrFragment(a) && IsQueryOrFragment(tail)
    ensures CutAt(CutAt(a + tail, '#'), '?') == a
    ensures CutAt(CutAt(a, '#'), '?') == a
  {
    CutAtAppend(a, tail, '#');
    var x := CutAt(tail, '#');
    if tail[0] == '?' {
      assert x[0] == '?';
      CutAtAppend(a, x, '?');
    }
    assert CutAt(a, '#') == a;
  }

  /** The extension is taken from the URL path alone: appending a query
      string or a fragment (`?x=1.png`, `#a.webp`) to a URL that has neither
      leaves the path, and therefore the extension, unchanged. */
  lemma ExtensionIgnoresQuery(u: string, tail: string)
    requires NoQueryOrFragment(u) && IsQueryOrFragment(tail)
    ensures UrlPath(u + tail) == UrlPath(u)
    ensures ImageExtension(u + tail) == ImageExtension(u)
  {
    CleanedAppend(u, tail);
    var u1 := Cleaned(u);
    var t1 := RemoveUnsafe(tail);
    SplitSchemeAppend(u1, t1);
    var r1 := SplitScheme(u1).1;
    AfterNetlocAppend(r1, t1);
    PathIgnoresQuery(AfterNetloc(r1), t1);
  }

  /** Characters allowed in the host of the sample URLs below: ASCII, so
      that `urlsplit` skips its NFKC check of the netloc, and no `[` or `]`,
      so that it skips the bracketed-host check; both checks can raise
      `ValueError`. */
  predicate HostChar(c: char) {
    c != '/' && !IsQueryOrFragmentMark(c) && !IsUnsafeUrlChar(c)
    && c != '[' && c != ']' && (c as int) < 128
  }

  /** Characters allowed in a sample path: no query, fragment, parameters
      or stripped characters. */
  predicate PathChar(c: char) {
    c != ';' && !IsQueryOrFragmentMark(c) && !IsUnsafeUrlChar(c)
  }

  /** Characters allowed in a last path segment: path characters other than `/`. */
  predicate SegmentChar(c: char) {
    PathChar(c) && c != '/'
  }

  predicate AllHostChars(s: string) {
    forall i :: 0 <= i < |s| ==> HostChar(s[i])
  }

  predicate AllPathChars(s: string) {
    forall i :: 0 <= i < |s| ==> PathChar(s[i])
  }

  predicate AllSegmentChars(s: string) {
    forall i :: 0 <= i < |s| ==> SegmentChar(s[i])
  }

  lemma {:induction false} RemoveUnsafeNoop(s: string)
    requires forall i :: 0 <= i < |s| ==> !IsUnsafeUrlChar(s[i])
    ensures RemoveUnsafe(s) == s
    decreases |s|
  {
    if |s| > 0 {
      RemoveUnsafeNoop(s[1..]);
      assert s == [s[0]] + s[1..];
    }
  }

  lemma HttpsScheme(rest: string)
    ensures SplitScheme("https:" + rest) == ("https", rest)
  {
    var url := "https:" + rest;
    assert url == "https" + ([':'] + rest);
    IndexOfAnyAppend("https", [':'] + rest, {':'});
    assert IndexOf("https", ':') == 5;
    assert IndexOf(url, ':') == 5;
    assert url[..5] == "https";
    assert forall k :: 0 <= k < 5 ==> IsSchemeChar(url[k]);
    assert AsciiLower("https") == "https";
    assert url[6..] == rest;
  }

  lemma NetlocSplit(host: string, path: string)
    requires AllHostChars(host)
    requires |path| > 0 && path[0] == '/'
    ensures AfterNetloc("//" + host + path) == path
  {
    var rest := "//" + host + path;
    assert rest[..2] == "//";
    assert rest[2..] == host + path;
    IndexOfAnyAppend(host, path, NetlocEnd);
    assert IndexOfAny(host + path, NetlocEnd) == |host|;
    assert rest[2 + |host|..] == path;
  }

  lemma CleanedNoop(url: string)
    requires |url| > 0 && !IsC0ControlOrSpace(url[0])
    requires forall i :: 0 <= i < |url| ==> !IsUnsafeUrlChar(url[i])
    ensures Cleaned(url) == url
  {
    RemoveUnsafeNoop(url);
  }

  /** A path with no `?`, `#` or `;` that starts with `/` is its own path. */
  lemma PlainPathAfterHttps(host: string, path: string)
    requires AllHostChars(host) && AllPathChars(path)
    requires |path| > 0 && path[0] == '/'
    ensures PathAfterScheme("https", "//" + host + path) == path
  {
    NetlocSplit(host, path);
    assert '#' !in path && '?' !in path && ';' !in path by {
      forall i | 0 <= i < |path|
        ensures PathChar(path[i])
      {
      }
    }
    assert CutAt(path, '#') == path;
    assert CutAt(path, '?') == path;
    var slash := RFind(path, '/');
    assert slash >= 0;
    assert ';' !in path[slash..];
    assert StripParams(path) == path;
    assert "https" in UsesParams;
  }

  /** For an `https://{host}{path}` URL whose host has no `/` and whose path
      has no query, fragment or parameters, the path is the part after the
      host. */
  lemma HttpsUrlPath(url: string, host: string, path: string)
    requires url == "https://" + host + path
    requires AllHostChars(host) && AllPathChars(path)
    requires |path| > 0 && path[0] == '/'
    ensures UrlPath(url) == path
  {
    var rest := "//" + host + path;
    assert url == "https:" + rest;
    assert url[0] == 'h';
    assert forall i :: 0 <= i < |url| ==> !IsUnsafeUrlChar(url[i]) by {
      forall i | 0 <= i < |url|
        ensures !IsUnsafeUrlChar(url[i])
      {
        if i >= 8 + |host| {
          assert url[i] == path[i - 8 - |host|];
        } else if i >= 8 {
          assert url[i] == host[i - 8];
        }
      }
    }
    CleanedNoop(url);
    HttpsScheme(rest);
    PlainPathAfterHttps(host, path);
  }

  /** `get_image_extension` of an `https://{host}{path}` URL depends on
      the path alone. */
  lemma HttpsImageExtension(url: string, host: string, path: string)
    requires url == "https://" + host + path
    requires AllHostChars(host) && AllPathChars(path)
    requires |path| > 0 && path[0] == '/'
    ensures ImageExtension(url) == NormalizeExtension(PathExtension(path))
  {
    HttpsUrlPath(url, host, path);
  }

  /** Joining a directory and a last segment gives a plain path. */
  lemma JoinSegmentChars(dir: string, name: string)
    requires AllPathChars(dir) && AllSegmentChars(name)
    ensures AllPathChars(dir + "/" + name)
  {
    var path := dir + "/" + name;
    forall i | 0 <= i < |path|
      ensures PathChar(path[i])
    {
      if i > |dir| {
        assert path[i] == name[i - |dir| - 1];
      } else if i < |dir| {
        assert path[i] == dir[i];
      }
    }
  }

  /** The last `/` of a joined path is the joining one. */
  lemma JoinSegment(dir: string, name: string)
    requires AllPathChars(dir) && AllSegmentChars(name)
    ensures AllPathChars(dir + "/" + name)
    ensures RFind(dir + "/" + name, '/') == |dir|
  {
    JoinSegmentChars(dir, name);
    assert '/' !in name by {
      forall i | 0 <= i < |name|
        ensures SegmentChar(name[i])
      {
      }
    }
    RFindAround(dir, '/', name);
  }

  /** A last segment with no dot gives no extension. */
  lemma UndottedSegmentExtension(dir: string, name: string)
    requires AllPathChars(dir) && AllSegmentChars(name)
    requires '.' !in name
    ensures PathExtension(dir + "/" + name) == []
  {
    JoinSegment(dir, name);
    var path := dir + "/" + name;
    var dot := RFind(path, '.');
    assert forall j :: |dir| < j < |path| ==> path[j] == name[j - |dir| - 1];
  }

  /** A last segment `{stem}.{suffix}` whose stem is not all dots gives the
      extension `.{suffix}`. */
  lemma DottedSegmentExtension(dir: string, name: string, stem: string, suffix: string)
    requires name == stem + "." + suffix
    requires AllPathChars(dir) && AllSegmentChars(name)
    requires '.' !in suffix
    requires exists k :: 0 <= k < |stem| && stem[k] != '.'
    ensures PathExtension(dir + "/" + name) == "." + suffix
  {
    var path := dir + "/" + name;
    JoinSegment(dir, name);
    var dotAt := |dir| + 1 + |stem|;
    assert path[dotAt] == name[|stem|] == '.';
    forall j | dotAt < j < |path|
      ensures path[j] != '.'
    {
      assert path[j] == suffix[j - dotAt - 1];
    }
    RFindAt(path, '.', dotAt);
    var k :| 0 <= k < |stem| && stem[k] != '.';
    assert path[|dir| + 1 + k] == stem[k];
    assert path[dotAt..] == name[|stem|..] == "." + suffix;
  }

  /** A last segment `{stem}.{suffix}` whose stem is empty or all dots has no
      extension: `splitext` treats leading dots as part of the name. */
  lemma DotsOnlySegmentExtension(dir: string, name: string, stem: string, suffix: string)
    requires name == stem + "." + suffix
    requires AllPathChars(dir) && AllSegmentChars(name)
    requires '.' !in suffix
    requires forall k :: 0 <= k < |stem| ==> stem[k] == '.'
    ensures PathExtension(dir + "/" + name) == []
  {
    var path := dir + "/" + name;
    JoinSegment(dir, name);
    var dotAt := |dir| + 1 + |stem|;
    assert path[dotAt] == name[|stem|] == '.';
    forall j | dotAt < j < |path|
      ensures path[j] != '.'
    {
      assert path[j] == suffix[j - dotAt - 1];
    }
    RFindAt(path, '.', dotAt);
    forall k | |dir| < k < dotAt
      ensures path[k] == '.'
    {
      assert path[k] == stem[k - |dir| - 1];
    }
  }

  /** So the URL of such a segment gets `.jpg` whatever the suffix:
      `https://x/y/.png` and `https://x/y/..webp` both give `.jpg`. */
  lemma DotsOnlyStemGivesJpg(url: string, host: string, dir: string, stem: string, suffix: string)
    requires url == "https://" + host + dir + "/" + stem + "." + suffix
    requires AllHostChars(host) && AllPathChars(dir) && AllSegmentChars(stem) && AllSegmentChars(suffix)
    requires |dir| == 0 || dir[0] == '/'
    requires '.' !in suffix
    requires forall k :: 0 <= k < |stem| ==> stem[k] == '.'
    ensures ImageExtension(url) == DefaultExtension
  {
    var name := stem + "." + suffix;
    DottedSegmentChars(stem, suffix);
    assert url == "https://" + host + dir + "/" + name;
    HttpsSegmentExtension(url, host, dir, name);
    DotsOnlySegmentExtension(dir, name, stem, suffix);
  }

  /** A last segment with no dot has no extension, so the URL gets `.jpg`
      (`https://x/y/img` gives `.jpg`). */
  lemma UndottedNameGivesJpg(url: string, host: string, dir: string, name: string)
    requires url == "https://" + host + dir + "/" + name
    requires AllHostChars(host) && AllPathChars(dir) && AllSegmentChars(name)
    requires |dir| == 0 || dir[0] == '/'
    requires '.' !in name
    ensures ImageExtension(url) == DefaultExtension
  {
    HttpsSegmentExtension(url, host, dir, name);
    UndottedSegmentExtension(dir, name);
  }

  /** A last segment `{stem}.{suffix}` whose stem is not all dots has the
      extension `.{suffix}`, normalised: `https://x/y/img.WEBP` gives
      `.webp` and `img.gif` gives `.jpg`. */
  lemma DottedNameExtension(url: string, host: string, dir: string, stem: string, suffix: string)
    requires url == "https://" + host + dir + "/" + stem + "." + suffix
    requires AllHostChars(host) && AllPathChars(dir) && AllSegmentChars(stem) && AllSegmentChars(suffix)
    requires |dir| == 0 || dir[0] == '/'
    requires '.' !in suffix
    requires exists k :: 0 <= k < |stem| && stem[k] != '.'
    ensures ImageExtension(url) == NormalizeExtension("." + suffix)
  {
    var name := stem + "." + suffix;
    DottedSegmentChars(stem, suffix);
    assert url == "https://" + host + dir + "/" + name;
    HttpsSegmentExtension(url, host, dir, name);
    DottedSegmentExtension(dir, name, stem, suffix);
  }

  lemma DottedSegmentChars(stem: string, suffix: string)
    requires AllSegmentChars(stem) && AllSegmentChars(suffix)
    ensures AllSegmentChars(stem + "." + suffix)
  {
    var name := stem + "." + suffix;
    forall i | 0 <= i < |name|
      ensures SegmentChar(name[i])
    {
      if i > |stem| {
        assert name[i] == suffix[i - |stem| - 1];
      } else if i < |stem| {
        assert name[i] == stem[i];
      }
    }
  }

  /** The extension of an `https` URL whose path ends in the segment `name`. */
  lemma HttpsSegmentExtension(url: string, host: string, dir: string, name: string)
    requires url == "https://" + host + dir + "/" + name
    requires AllHostChars(host) && AllPathChars(dir) && AllSegmentChars(name)
    requires |dir| == 0 || dir[0] == '/'
    ensures ImageExtension(url) == NormalizeExtension(PathExtension(dir + "/" + name))
  {
    var path := dir + "/" + name;
    JoinSegmentChars(dir, name);
    assert path[0] == '/' by {
      if |dir| == 0 {
        assert path[0] == "/"[0];
      } else {
        assert path[0] == dir[0];
      }
    }
    assert url == "https://" + host + path;
    HttpsImageExtension(url, host, path);
  }

  lemma UpperWebpNormalizes()
    ensures NormalizeExtension(".WEBP") == ".webp"
  {
    assert AsciiLower(".WEBP") == ".webp";
  }
}
