/**
 * Where a request is forwarded (src/index.ts, `fetch`): the first non-empty
 * `/`-separated segment of the path chooses the upstream host when it starts
 * with `~`; otherwise the request goes to the image host `i.pximg.net` with a
 * `Referer` of `https://pixiv.net`. Stated on the raw pathname string.
 */
module Target {
  import opened Wrappers
  import opened JsStrings

  /** The default route, written with its `~` marker as the source keeps it. */
  const DefaultHostname := "~i.pximg.net"
  const DefaultReferer := "https://pixiv.net"

  /** The upstream host, the upstream path and the `Referer` to send (`None` for null). */
  datatype Target = Target(hostname: string, pathname: string, referer: Option<string>)

  /** `pathname.split('/').filter(Boolean)[0]`. */
  function FirstSegment(pathname: string): (seg: Option<string>)
    ensures seg.Some? ==> seg.value != [] && '/' !in seg.value
  {
    var segments := NonEmpty(Split(pathname, '/'));
    if segments == [] then None
    else
      assert segments[0] in segments;
      Some(segments[0])
  }

  /** The number of `/` characters the path starts with. */
  function LeadingSlashes(s: string): (k: nat)
    ensures k <= |s|
    ensures forall i :: 0 <= i < k ==> s[i] == '/'
    ensures k < |s| ==> s[k] != '/'
  {
    if s != [] && s[0] == '/' then 1 + LeadingSlashes(s[1..]) else 0
  }

  /** The length of the run of non-`/` characters `s` starts with. */
  function RunLength(s: string): (m: nat)
    ensures m <= |s|
    ensures forall i :: 0 <= i < m ==> s[i] != '/'
    ensures m < |s| ==> s[m] == '/'
  {
    if s != [] && s[0] != '/' then 1 + RunLength(s[1..]) else 0
  }

  /** `filter(Boolean)` skips a leading empty piece. */
  lemma NonEmptySkipsEmpty(parts: seq<string>)
    ensures NonEmpty([[]] + parts) == NonEmpty(parts)
  {
  }

  /** A path made of slashes only has no segment. */
  lemma {:induction false} AllSlashesNoSegment(p: string)
    requires forall i :: 0 <= i < |p| ==> p[i] == '/'
    ensures FirstSegment(p) == None
    decreases |p|
  {
    if p != [] {
      AllSlashesNoSegment(p[1..]);
      NonEmptySkipsEmpty(Split(p[1..], '/'));
    }
  }

  /** Whatever slashes lead up to it, a slash-free run followed by the end of
      the path or a `/` is the first segment. */
  lemma {:induction false} FirstSegmentOf(lead: string, seg: string, rest: string)
    requires forall i :: 0 <= i < |lead| ==> lead[i] == '/'
    requires seg != [] && '/' !in seg
    requires rest == [] || rest[0] == '/'
    ensures FirstSegment(lead + seg + rest) == Some(seg)
    decreases |lead|
  {
    if lead == [] {
      assert lead + seg + rest == seg + rest;
      SplitPrefix(seg, rest, '/');
      var tail := Split(rest, '/');
      assert tail[0] == [] by {
        if rest != [] { assert tail == [[]] + Split(rest[1..], '/'); }
      }
      var parts := Split(seg + rest, '/');
      assert parts == [seg + []] + tail[1..];
      assert seg + [] == seg;
      assert parts[1..] == tail[1..];
      assert NonEmpty(parts) == [seg] + NonEmpty(tail[1..]);
    } else {
      var p := lead + seg + rest;
      assert p[0] == '/' && p[1..] == lead[1..] + seg + rest;
      FirstSegmentOf(lead[1..], seg, rest);
      NonEmptySkipsEmpty(Split(p[1..], '/'));
    }
  }

  /** The first segment, by an independent definition: skip the leading
      slashes, then take the run up to the next slash; there is none exactly
      when the path is all slashes (the empty path and `/` among them). */
  lemma {:induction false} FirstSegmentSpec(p: string)
    ensures FirstSegment(p) == None <==> forall i :: 0 <= i < |p| ==> p[i] == '/'
    ensures var k := LeadingSlashes(p);
            k < |p| ==> FirstSegment(p) == Some(p[k..k + RunLength(p[k..])])
  {
    var k := LeadingSlashes(p);
    if k == |p| {
      AllSlashesNoSegment(p);
    } else {
      var m := RunLength(p[k..]);
      assert p[k..][0] != '/';
      assert p == p[..k] + p[k..k + m] + p[k + m..];
      FirstSegmentOf(p[..k], p[k..k + m], p[k + m..]);
    }
  }

  /** The `~` marker that routes a request to a host named in its path. */
  predicate NamesUpstream(seg: Option<string>)
  {
    seg.Some? && StartsWith(seg.value, "~")
  }

  /** Lines 26-37 of the handler: choose hostname and referer, strip the first
      occurrence of `/` + hostname from the path, drop the `~` marker. */
  function Rewrite(pathname: string, referer: Option<string>): (t: Target)
    ensures '/' !in t.hostname
  {
    var seg := FirstSegment(pathname);
    var hostname := if NamesUpstream(seg) then seg.value else DefaultHostname;
    var referer' := if NamesUpstream(seg) then referer else Some(DefaultReferer);
    Target(SliceFrom(hostname, 1), ReplaceFirst(pathname, "/" + hostname, ""), referer')
  }

  /** A first segment `~host` sends the request to `host` with the inbound
      `Referer` unchanged (null included); for a path that starts with `/`
      the upstream path is the inbound one without that `/~host`. The
      pathname of an http(s) URL always starts with `/`, so `k > 0` covers
      every path the handler sees. */
  lemma {:induction false} RewriteToNamedHost(p: string, referer: Option<string>)
    requires LeadingSlashes(p) < |p| && p[LeadingSlashes(p)] == '~'
    ensures var k := LeadingSlashes(p);
            var m := RunLength(p[k..]);
            var t := Rewrite(p, referer);
            && t.hostname == p[k + 1..k + m]
            && |t.hostname| == m - 1
            && t.referer == referer
            && (k > 0 ==> t.pathname == p[..k - 1] + p[k + m..])
  {
    var k := LeadingSlashes(p);
    var m := RunLength(p[k..]);
    FirstSegmentSpec(p);
    var seg := p[k..k + m];
    RewriteNamed(p, referer, seg);
    assert seg[1..] == p[k + 1..k + m];
    if k > 0 {
      StripSegment(p, k, m);
    }
  }

  lemma RewriteNamed(p: string, referer: Option<string>, seg: string)
    requires FirstSegment(p) == Some(seg) && seg[0] == '~'
    ensures Rewrite(p, referer) == Target(seg[1..], ReplaceFirst(p, "/" + seg, ""), referer)
  {
  }

  /** Behind a run of slashes, `/` + the segment first occurs right before it. */
  lemma {:induction false} StripSegment(p: string, k: nat, m: nat)
    requires 0 < k && k + m <= |p| && 0 < m
    requires forall i :: 0 <= i < k ==> p[i] == '/'
    requires p[k] != '/'
    ensures ReplaceFirst(p, "/" + p[k..k + m], "") == p[..k - 1] + p[k + m..]
  {
    var pat := "/" + p[k..k + m];
    assert |pat| == m + 1;
    assert OccursAt(p, pat, k - 1) by {
      assert p[k - 1..k + m] == [p[k - 1]] + p[k..k + m];
    }
    forall j | 0 <= j < k - 1 ensures !OccursAt(p, pat, j) {
      assert p[j + 1] == '/' && pat[1] == p[k];
    }
    var r := IndexOf(p, pat);
    assert r == Some(k - 1);
    assert ReplaceFirst(p, pat, "") == p[..k - 1] + [] + p[k + m..];
    assert p[..k - 1] + [] == p[..k - 1];
  }

  /** Without a `~` first segment the request goes to `i.pximg.net` with
      `Referer: https://pixiv.net`, whatever the inbound `Referer` was; the
      path loses only the first `/~i.pximg.net` in it, if any. */
  lemma {:induction false} RewriteToDefaultHost(p: string, referer: Option<string>)
    requires LeadingSlashes(p) == |p| || p[LeadingSlashes(p)] != '~'
    ensures var t := Rewrite(p, referer);
            && t.hostname == "i.pximg.net"
            && t.referer == Some(DefaultReferer)
            && ((forall j :: !OccursAt(p, "/~i.pximg.net", j)) ==> t.pathname == p)
            && forall i :: OccursAt(p, "/~i.pximg.net", i) && (forall j :: 0 <= j < i ==> !OccursAt(p, "/~i.pximg.net", j))
                 ==> t.pathname == p[..i] + p[i + 13..]
  {
    FirstSegmentSpec(p);
    var k := LeadingSlashes(p);
    assert !NamesUpstream(FirstSegment(p)) by {
      if k < |p| {
        assert FirstSegment(p).value[0] == p[k];
      }
    }
    RewriteDefault(p, referer);
  }

  lemma RewriteDefault(p: string, referer: Option<string>)
    requires !NamesUpstream(FirstSegment(p))
    ensures Rewrite(p, referer) == Target("i.pximg.net", ReplaceFirst(p, "/~i.pximg.net", ""), Some(DefaultReferer))
  {
    assert "/" + DefaultHostname == "/~i.pximg.net";
    assert SliceFrom(DefaultHostname, 1) == "i.pximg.net";
  }
}
