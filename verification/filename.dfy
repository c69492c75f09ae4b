/** The download filename in `GET /download/:itag` (server.js): the video
    title reduced to a safe alphabet, trimmed, given an extension and capped
    at 200 characters. */
module Filename {
  import opened Wrappers
  import opened Seqs

  /** Matched by neither `/[^\x00-\x7F]/`: a character of the ASCII range. */
  predicate IsAscii(c: char)
  {
    c as int < 0x80
  }

  /** The class `[a-zA-Z0-9-_. ]`, whose `-` after the range `0-9` is literal. */
  predicate IsSafe(c: char)
  {
    || 'a' <= c <= 'z' || 'A' <= c <= 'Z' || '0' <= c <= '9'
    || c == '-' || c == '_' || c == '.' || c == ' '
  }

  /** What `String.prototype.trim` removes: ECMAScript WhiteSpace and
      LineTerminator characters. */
  predicate IsJsSpace(c: char)
  {
    || c == '\t' || c == '\n' || c == '\U{000B}' || c == '\U{000C}' || c == '\r' || c == ' '
    || c == '\U{00A0}' || c == '\U{1680}' || '\U{2000}' <= c <= '\U{200A}'
    || c == '\U{2028}' || c == '\U{2029}' || c == '\U{202F}' || c == '\U{205F}'
    || c == '\U{3000}' || c == '\U{FEFF}'
  }

  predicate IsDot(c: char)
  {
    c == '.'
  }

  /** `trim()`: the middle of `s` between runs of white space at both ends. */
  function Trim(s: string): (r: string)
    ensures exists i, j :: AllIn(s, 0, i, IsJsSpace) && AllIn(s, j, |s|, IsJsSpace)
              && i <= j && r == s[i..j]
    ensures r == [] || (!IsJsSpace(r[0]) && !IsJsSpace(r[|r| - 1]))
  {
    StripEnds(s, IsJsSpace)
  }

  /** `replace(/\.+$/, '')`: the run of dots that ends the string is removed. */
  function StripTrailingDots(s: string): (r: string)
    ensures exists j :: AllIn(s, j, |s|, IsDot) && r == s[..j]
    ensures r == [] || r[|r| - 1] != '.'
  {
    StripEnd(s, IsDot)
  }

  /** The first two replacements: non-ASCII characters, then everything
      outside the safe class, removed. */
  function SafeChars(title: string): (r: string)
    ensures forall k :: 0 <= k < |r| ==> IsSafe(r[k])
  {
    Filter(Filter(title, IsAscii), IsSafe)
  }

  /** Every safe character is ASCII, so the first replacement changes nothing
      the second would keep: together they keep exactly the safe characters. */
  lemma SafeCharsKeepsTheSafeOnes(title: string)
    ensures SafeChars(title) == Filter(title, IsSafe)
    ensures forall k :: 0 <= k < |title| && IsSafe(title[k]) ==> title[k] in SafeChars(title)
    ensures forall k :: 0 <= k < |SafeChars(title)| ==> SafeChars(title)[k] in title
  {
    FilterFilter(title, IsAscii, IsSafe);
    FilterAgree(title, And(IsAscii, IsSafe), IsSafe);
    FilterMembers(title, IsSafe);
  }

  /** `b` is the middle of `kept`, with only spaces before it and only dots
      and spaces after it. */
  predicate IsFramedRun(kept: string, b: string)
  {
    exists i, j :: 0 <= i <= j <= |kept| && b == kept[i..j]
      && (forall k :: 0 <= k < i ==> kept[k] == ' ')
      && (forall k :: j <= k < |kept| ==> kept[k] == ' ' || kept[k] == '.')
  }

  /** The filename before its extension: safe characters only, trimmed, with
      no trailing dot. It is a run of the title's safe characters, framed by
      white space in front and by dots and spaces behind. */
  function SanitiseBase(title: string): (b: string)
    ensures forall k :: 0 <= k < |b| ==> IsSafe(b[k])
    ensures b == [] || (b[|b| - 1] != '.' && b[0] != ' ')
    ensures IsFramedRun(SafeChars(title), b)
  {
    var kept := SafeChars(title);
    TrimmedBase(kept);
    StripTrailingDots(Trim(kept))
  }

  /** Trimming a run of safe characters and stripping its trailing dots
      leaves a framed run that starts with no space. */
  lemma TrimmedBase(kept: string)
    requires forall k :: 0 <= k < |kept| ==> IsSafe(kept[k])
    ensures var b := StripTrailingDots(Trim(kept));
      && IsFramedRun(kept, b)
      && (forall k :: 0 <= k < |b| ==> IsSafe(b[k]))
      && (b == [] || b[0] != ' ')
  {
    var t := Trim(kept);
    var b := StripTrailingDots(t);
    var i, j :| AllIn(kept, 0, i, IsJsSpace) && AllIn(kept, j, |kept|, IsJsSpace) && i <= j && t == kept[i..j];
    var e :| AllIn(t, e, |t|, IsDot) && b == t[..e];
    BaseSlice(kept, t, b, i, j, e);
    assert b != [] ==> b[0] == t[0];
  }

  /** The bookkeeping behind `SanitiseBase`: a prefix of a trimmed slice of
      safe characters is a slice framed by spaces and dots. */
  lemma BaseSlice(kept: string, t: string, b: string, i: nat, j: nat, e: nat)
    requires forall k :: 0 <= k < |kept| ==> IsSafe(kept[k])
    requires i <= j <= |kept| && t == kept[i..j] && AllIn(kept, 0, i, IsJsSpace) && AllIn(kept, j, |kept|, IsJsSpace)
    requires e <= |t| && b == t[..e] && AllIn(t, e, |t|, IsDot)
    ensures IsFramedRun(kept, b)
    ensures forall k :: 0 <= k < |b| ==> IsSafe(b[k])
  {
    assert b == kept[i..i + e];
    forall k | 0 <= k < i
      ensures kept[k] == ' '
    {
      assert IsJsSpace(kept[k]) && IsSafe(kept[k]);
    }
    forall k | i + e <= k < |kept|
      ensures kept[k] == ' ' || kept[k] == '.'
    {
      if k < j {
        assert t[k - i] == kept[k];
      } else {
        assert IsJsSpace(kept[k]) && IsSafe(kept[k]);
      }
    }
  }

  /** The position of the last `'.'` in `s`, if any. */
  function LastDot(s: string): (r: Option<nat>)
    ensures r.Some? ==> r.value < |s| && s[r.value] == '.' && forall k :: r.value < k < |s| ==> s[k] != '.'
    ensures r.None? ==> forall k :: 0 <= k < |s| ==> s[k] != '.'
    decreases |s|
  {
    if s == [] then None
    else if s[|s| - 1] == '.' then Some(|s| - 1)
    else LastDot(s[..|s| - 1])
  }

  /** Node's `path.extname` on a name without `/`: from the last dot to the
      end, except that a dot in front (`.profile`) and the name `..` have no
      extension. */
  function Extname(name: string): (r: string)
    requires forall k :: 0 <= k < |name| ==> name[k] != '/'
    ensures r == [] <==> name == ".." || forall k :: 0 < k < |name| ==> name[k] != '.'
    ensures r != [] ==>
      && |r| < |name| && r == name[|name| - |r|..]
      && r[0] == '.' && forall k :: 0 < k < |r| ==> r[k] != '.'
  {
    match LastDot(name)
    case None => ""
    case Some(d) =>
      if d == 0 || name == ".." then ""
      else
        assert name[d..][0] == '.';
        name[d..]
  }

  /** The extension `server.js` gives the download. */
  function Extension(audioOnly: bool): (e: string)
    ensures |e| == 4 && e[0] == '.' && forall k :: 0 <= k < 4 ==> IsSafe(e[k])
    ensures audioOnly <==> e == ".mp3"
    ensures !audioOnly <==> e == ".mp4"
  {
    if audioOnly then ".mp3" else ".mp4"
  }

  /** `path.extname` of a sanitised name with its extension is that
      extension, as long as the base is not empty. */
  lemma ExtnameOfNamed(base: string, audioOnly: bool)
    requires forall k :: 0 <= k < |base| ==> IsSafe(base[k])
    requires base != []
    ensures forall k :: 0 <= k < |base + Extension(audioOnly)| ==> (base + Extension(audioOnly))[k] != '/'
    ensures Extname(base + Extension(audioOnly)) == Extension(audioOnly)
  {
    var e := Extension(audioOnly);
    var f := base + e;
    assert forall k :: 0 <= k < |f| ==> IsSafe(f[k]);
    assert f[|base|] == '.';
    assert forall k :: |base| < k < |f| ==> f[k] == e[k - |base|];
    assert f != "..";
    assert LastDot(f) == Some(|base|) by {
      assert f[..|f| - 1][..|f| - 2] == f[..|f| - 2];
      assert f[..|f| - 2][..|f| - 3] == f[..|f| - 3];
      assert f[..|f| - 3][..|f| - 4] == f[..|f| - 4];
    }
  }

  /** The name cut to 200 characters keeps its extension. */
  lemma Truncated(base: string, audioOnly: bool)
    requires forall k :: 0 <= k < |base| ==> IsSafe(base[k])
    requires |base| + 4 > 200
    ensures var f := base + Extension(audioOnly);
      && (forall k :: 0 <= k < |f| ==> f[k] != '/')
      && var r := f[..196] + Extname(f);
      && |r| == 200 && r[..196] == base[..196] && r[196..] == Extension(audioOnly)
      && forall k :: 0 <= k < |r| ==> IsSafe(r[k])
  {
    ExtnameOfNamed(base, audioOnly);
    var f := base + Extension(audioOnly);
    var r := f[..196] + Extname(f);
    assert f[..196] == base[..196];
    assert forall k :: 0 <= k < 196 ==> r[k] == base[k];
    assert forall k :: 196 <= k < 200 ==> r[k] == Extension(audioOnly)[k - 196];
  }

  /** The downloaded file's name: only safe characters, at most 200 of them,
      ending in `.mp3` for audio and `.mp4` otherwise. A name that would run
      past 200 is cut to its first 196 characters plus the extension. */
  function DownloadName(title: string, audioOnly: bool): (r: string)
    ensures forall k :: 0 <= k < |r| ==> IsSafe(r[k])
    ensures |r| <= 200
    ensures |r| >= 4 && r[|r| - 4..] == Extension(audioOnly)
    ensures |SanitiseBase(title)| + 4 <= 200 ==> r == SanitiseBase(title) + Extension(audioOnly)
    ensures |SanitiseBase(title)| + 4 > 200 ==> |r| == 200 && r[..196] == SanitiseBase(title)[..196]
  {
    var base := SanitiseBase(title);
    var f := base + Extension(audioOnly);
    if |f| > 200 then
      Truncated(base, audioOnly);
      f[..196] + Extname(f)
    else
      assert f[|f| - 4..] == Extension(audioOnly);
      assert forall k :: 0 <= k < |f| ==> IsSafe(f[k]);
      f
  }

  /** The `Content-Type` header. */
  function ContentType(audioOnly: bool): (t: string)
    ensures audioOnly <==> t == "audio/mpeg"
    ensures !audioOnly <==> t == "video/mp4"
  {
    if audioOnly then "audio/mpeg" else "video/mp4"
  }
}
