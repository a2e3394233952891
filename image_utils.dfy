/** The image-URL rewrite: a GitHub `blob` page URL becomes the raw-file URL of the same file. */
module ImageUtils {
  import opened Json

  const GithubHost := "github.com"
  const RawHost := "raw.githubusercontent.com"
  const BlobSegment := "/blob/"

  /** `pat` occurs in `s` starting at `i`. */
  predicate At(s: string, pat: string, i: nat) {
    i + |pat| <= |s| && s[i..i + |pat|] == pat
  }

  /** `s.includes(pat)`. */
  predicate Contains(s: string, pat: string) {
    exists i: nat | i <= |s| :: At(s, pat, i)
  }

  /** The first occurrence of `pat` in `s` at or after `from`, if any. */
  function FindFrom(s: string, pat: string, from: nat): (r: Option<nat>)
    requires |pat| > 0
    ensures r.Some? ==> from <= r.value && At(s, pat, r.value)
    ensures r.Some? ==> forall j: nat :: from <= j < r.value ==> !At(s, pat, j)
    ensures r.None? ==> forall j: nat :: from <= j ==> !At(s, pat, j)
    decreases |s| - from
  {
    if from + |pat| > |s| then None
    else if s[from..from + |pat|] == pat then Some(from)
    else FindFrom(s, pat, from + 1)
  }

  /** `s.replace(pat, repl)` with a string pattern: only the first occurrence is replaced. */
  function ReplaceFirst(s: string, pat: string, repl: string): string
    requires |pat| > 0
  {
    match FindFrom(s, pat, 0)
    case None => s
    case Some(i) => s[..i] + repl + s[i + |pat|..]
  }

  /**
   * What `ReplaceFirst` does: with no occurrence the text is unchanged; otherwise the text
   * before the first occurrence, the replacement, and the text after it.
   */
  lemma ReplaceFirstSpec(s: string, pat: string, repl: string)
    requires |pat| > 0
    ensures !Contains(s, pat) ==> ReplaceFirst(s, pat, repl) == s
    ensures Contains(s, pat) ==> exists i: nat ::
      && At(s, pat, i)
      && (forall j: nat :: j < i ==> !At(s, pat, j))
      && ReplaceFirst(s, pat, repl) == s[..i] + repl + s[i + |pat|..]
  {
    var r := FindFrom(s, pat, 0);
    if Contains(s, pat) {
      var k: nat :| At(s, pat, k);
      assert r.Some?;
    }
  }

  /** `getOptimizedImageUrl`: `null`, `undefined` and `''` give `''`. */
  function GetOptimizedImageUrl(url: Option<string>): string
  {
    if url.None? || url.value == "" then ""
    else if Contains(url.value, GithubHost) && Contains(url.value, BlobSegment) then
      ReplaceFirst(ReplaceFirst(url.value, GithubHost, RawHost), BlobSegment, "/")
    else url.value
  }

  /** `s` has no `/`. */
  predicate SlashFree(s: string) {
    forall k :: 0 <= k < |s| ==> s[k] != '/'
  }

  /** `pat` occurs in `s` at most once. */
  ghost predicate AtMostOnce(s: string, pat: string) {
    forall i: nat, j: nat :: At(s, pat, i) && At(s, pat, j) ==> i == j
  }

  /**
   * An occurrence of a pattern that begins and ends with `/` cannot overlap a slash-free
   * middle part too long to fit inside it: it lies wholly before or wholly after.
   */
  lemma Avoids(t: string, a: string, mid: string, b: string, pat: string, p: nat)
    requires t == a + mid + b
    requires At(t, pat, p)
    requires |pat| >= 1 && pat[0] == '/' && pat[|pat| - 1] == '/'
    requires SlashFree(mid) && |pat| < |mid| + 2
    ensures p + |pat| <= |a| || p >= |a| + |mid|
  {
    assert t[p..p + |pat|][0] == t[p];
    assert t[p..p + |pat|][|pat| - 1] == t[p + |pat| - 1];
    assert forall k :: |a| <= k < |a| + |mid| ==> t[k] == mid[k - |a|];
  }

  /**
   * Replacing the occurrence of `found` at `i` by `mid` moves every occurrence of `pat` that
   * lies wholly before it or wholly after it, and nothing else: before stays in place, after
   * shifts by the change in length.
   */
  lemma Moved(u: string, i: nat, found: string, mid: string, pat: string, p: nat)
    requires At(u, found, i)
    requires At(u[..i] + mid + u[i + |found|..], pat, p)
    ensures p + |pat| <= i ==> At(u, pat, p)
    ensures p >= i + |mid| ==> At(u, pat, p - |mid| + |found|)
  {
    var t := u[..i] + mid + u[i + |found|..];
    if p + |pat| <= i {
      assert t[p..p + |pat|] == u[p..p + |pat|];
    }
    if p >= i + |mid| {
      var q := p - |mid| + |found|;
      assert t[p..p + |pat|] == u[q..q + |pat|];
    }
  }

  /** The converse of `Moved`: occurrences clear of the replaced text survive. */
  lemma Kept(u: string, i: nat, found: string, mid: string, pat: string, q: nat)
    requires At(u, found, i)
    requires At(u, pat, q)
    ensures q + |pat| <= i ==> At(u[..i] + mid + u[i + |found|..], pat, q)
    ensures q >= i + |found| ==> At(u[..i] + mid + u[i + |found|..], pat, q - |found| + |mid|)
  {
    var t := u[..i] + mid + u[i + |found|..];
    if q + |pat| <= i {
      assert t[q..q + |pat|] == u[q..q + |pat|];
    }
    if q >= i + |found| {
      var p := q - |found| + |mid|;
      assert t[p..p + |pat|] == u[q..q + |pat|];
    }
  }

  /**
   * Where an occurrence of `/blob/` can sit once the occurrence at `i` is cut down to `/`:
   * each place corresponds to a different occurrence in the text before the cut.
   */
  lemma CutOccurrence(t: string, i: nat, p: nat)
    requires At(t, BlobSegment, i)
    requires At(t[..i] + "/" + t[i + 6..], BlobSegment, p)
    ensures exists k: nat :: k != i && At(t, BlobSegment, k)
  {
    var r := t[..i] + "/" + t[i + 6..];
    assert |r| == |t| - 5;
    if p + 6 <= i {
      Moved(t, i, BlobSegment, "/", BlobSegment, p);
      assert At(t, BlobSegment, p);
    } else if p >= i + 1 {
      Moved(t, i, BlobSegment, "/", BlobSegment, p);
      assert At(t, BlobSegment, p + 5);
    } else {
      assert r[i] == '/';
      assert r[p..p + 6][i - p] == r[i];
      assert forall k :: 1 <= k <= 4 ==> BlobSegment[k] != '/';
      assert p == i || p + 5 == i;
      if p == i {
        assert t[i..i + 6][5] == t[i + 5];
        assert t[i + 6..i + 11] == r[i + 1..i + 6];
        assert r[p..p + 6][1..] == r[i + 1..i + 6];
        assert t[i + 5..i + 11] == [t[i + 5]] + t[i + 6..i + 11];
        assert At(t, BlobSegment, i + 5);
      } else {
        assert t[p..i] == r[p..i];
        assert r[p..p + 6][..5] == r[p..i];
        assert t[i..i + 6][0] == t[i];
        assert t[p..p + 6] == t[p..i] + [t[i]];
        assert At(t, BlobSegment, p);
      }
    }
  }

  /** Cutting the only `/blob/` down to `/` leaves none. */
  lemma CutLeavesNone(t: string)
    requires AtMostOnce(t, BlobSegment)
    ensures !Contains(ReplaceFirst(t, BlobSegment, "/"), BlobSegment)
  {
    var r := ReplaceFirst(t, BlobSegment, "/");
    match FindFrom(t, BlobSegment, 0)
    case None =>
      assert !Contains(r, BlobSegment);
    case Some(i) =>
      forall p: nat | p <= |r|
        ensures !At(r, BlobSegment, p)
      {
        if At(r, BlobSegment, p) {
          CutOccurrence(t, i, p);
        }
      }
  }

  /** The host rewrite splits the URL around the first `github.com`. */
  lemma HostSplit(u: string) returns (i: nat)
    requires Contains(u, GithubHost)
    ensures At(u, GithubHost, i)
    ensures u == u[..i] + GithubHost + u[i + 10..]
    ensures ReplaceFirst(u, GithubHost, RawHost) == u[..i] + RawHost + u[i + 10..]
  {
    var k: nat :| k <= |u| && At(u, GithubHost, k);
    i := FindFrom(u, GithubHost, 0).value;
    assert u[i..i + 10] == GithubHost;
    assert u == u[..i] + u[i..i + 10] + u[i + 10..];
  }

  /**
   * Putting the raw host in place of the first `github.com` keeps the `/blob/` occurrences
   * one for one, since neither host has a `/`; the URL grows by 15 characters.
   */
  lemma HostStep(u: string)
    requires Contains(u, GithubHost)
    ensures |ReplaceFirst(u, GithubHost, RawHost)| == |u| + 15
    ensures Contains(u, BlobSegment) ==> Contains(ReplaceFirst(u, GithubHost, RawHost), BlobSegment)
    ensures AtMostOnce(u, BlobSegment) ==> AtMostOnce(ReplaceFirst(u, GithubHost, RawHost), BlobSegment)
  {
    var i := HostSplit(u);
    if Contains(u, BlobSegment) {
      HostKeepsBlob(u, i);
    }
    if AtMostOnce(u, BlobSegment) {
      HostKeepsOnce(u, i);
    }
  }

  lemma HostKeepsBlob(u: string, i: nat)
    requires At(u, GithubHost, i) && u == u[..i] + GithubHost + u[i + 10..]
    requires Contains(u, BlobSegment)
    ensures Contains(u[..i] + RawHost + u[i + 10..], BlobSegment)
  {
    assert SlashFree(GithubHost);
    var q: nat :| q <= |u| && At(u, BlobSegment, q);
    Avoids(u, u[..i], GithubHost, u[i + 10..], BlobSegment, q);
    Kept(u, i, GithubHost, RawHost, BlobSegment, q);
  }

  lemma HostKeepsOnce(u: string, i: nat)
    requires At(u, GithubHost, i) && u == u[..i] + GithubHost + u[i + 10..]
    requires AtMostOnce(u, BlobSegment)
    ensures AtMostOnce(u[..i] + RawHost + u[i + 10..], BlobSegment)
  {
    var t := u[..i] + RawHost + u[i + 10..];
    assert SlashFree(RawHost);
    forall p: nat, q: nat | At(t, BlobSegment, p) && At(t, BlobSegment, q)
      ensures p == q
    {
      Avoids(t, u[..i], RawHost, u[i + 10..], BlobSegment, p);
      Avoids(t, u[..i], RawHost, u[i + 10..], BlobSegment, q);
      Moved(u, i, GithubHost, RawHost, BlobSegment, p);
      Moved(u, i, GithubHost, RawHost, BlobSegment, q);
    }
  }

  /**
   * The three outcomes: an empty or missing URL gives `''`; a URL lacking either
   * `github.com` or `/blob/` comes back as it was; a blob URL has its first `github.com`
   * turned into the raw host and then its first `/blob/` into `/`, which lengthens it by 10.
   */
  lemma OptimizedCases(url: Option<string>)
    ensures url.None? || url.value == "" ==> GetOptimizedImageUrl(url) == ""
    ensures url.Some? && !(Contains(url.value, GithubHost) && Contains(url.value, BlobSegment)) ==>
      GetOptimizedImageUrl(url) == url.value
    ensures url.Some? && Contains(url.value, GithubHost) && Contains(url.value, BlobSegment) ==>
      && GetOptimizedImageUrl(url) == ReplaceFirst(ReplaceFirst(url.value, GithubHost, RawHost), BlobSegment, "/")
      && |GetOptimizedImageUrl(url)| == |url.value| + 10
  {
    if url.Some? && Contains(url.value, GithubHost) && Contains(url.value, BlobSegment) {
      var t := ReplaceFirst(url.value, GithubHost, RawHost);
      HostStep(url.value);
      var q: nat :| q <= |t| && At(t, BlobSegment, q);
      assert FindFrom(t, BlobSegment, 0).Some?;
    }
  }

  /**
   * Rewriting twice is rewriting once, for a URL with at most one `/blob/`: the rewrite
   * removes that one and the raw host brings none.
   */
  lemma OptimizedIdempotent(url: Option<string>)
    requires url.Some? ==> AtMostOnce(url.value, BlobSegment)
    ensures GetOptimizedImageUrl(Some(GetOptimizedImageUrl(url))) == GetOptimizedImageUrl(url)
  {
    if url.Some? && url.value != "" && Contains(url.value, GithubHost) && Contains(url.value, BlobSegment) {
      var t := ReplaceFirst(url.value, GithubHost, RawHost);
      HostStep(url.value);
      CutLeavesNone(t);
    }
  }

  /**
   * No occurrence of `pat` starts inside the `mid` part of `a + mid + b` when every
   * character of `mid` equal to the pattern's first is followed by one unequal to its second.
   */
  lemma NoStartIn(a: string, mid: string, b: string, pat: string)
    requires |pat| >= 2
    requires forall k :: 0 <= k < |mid| - 1 && mid[k] == pat[0] ==> mid[k + 1] != pat[1]
    requires mid != [] && mid[|mid| - 1] == pat[0] ==> b != [] && b[0] != pat[1]
    ensures forall j: nat :: |a| <= j < |a| + |mid| ==> !At(a + mid + b, pat, j)
  {
    var t := a + mid + b;
    forall j: nat | |a| <= j < |a| + |mid|
      ensures !At(t, pat, j)
    {
      var k := j - |a|;
      assert t[j] == mid[k];
      if j + |pat| <= |t| && mid[k] == pat[0] {
        assert t[j..j + |pat|][1] == t[j + 1];
        if k + 1 < |mid| {
          assert t[j + 1] == mid[k + 1];
        } else {
          assert t[j + 1] == b[0];
        }
      } else if j + |pat| <= |t| {
        assert t[j..j + |pat|][0] == t[j];
      }
    }
  }

  /** The first occurrence of `pat` is where the text is cut, when none starts earlier. */
  lemma ReplaceAt(a: string, pat: string, rest: string, repl: string)
    requires |pat| > 0
    requires forall j: nat :: j < |a| ==> !At(a + pat + rest, pat, j)
    ensures ReplaceFirst(a + pat + rest, pat, repl) == a + repl + rest
  {
    var u := a + pat + rest;
    assert u[|a|..|a| + |pat|] == pat;
    assert At(u, pat, |a|);
    assert FindFrom(u, pat, 0) == Some(|a|);
    assert u[..|a|] == a;
    assert u[|a| + |pat|..] == rest;
  }

  /**
   * A blob URL whose first `github.com` and first `/blob/` are the marked ones becomes the
   * raw URL with the same prefix, path and file.
   */
  lemma BlobUrl(prefix: string, middle: string, rest: string)
    requires forall j: nat :: j < |prefix| ==> !At(prefix + GithubHost + (middle + BlobSegment + rest), GithubHost, j)
    requires forall j: nat :: j < |prefix + RawHost + middle| ==> !At((prefix + RawHost + middle) + BlobSegment + rest, BlobSegment, j)
    ensures GetOptimizedImageUrl(Some(prefix + GithubHost + middle + BlobSegment + rest)) == prefix + RawHost + middle + "/" + rest
  {
    var u := prefix + GithubHost + middle + BlobSegment + rest;
    BlobUrlMarked(prefix, middle, rest);
    assert u == prefix + GithubHost + (middle + BlobSegment + rest);
    ReplaceAt(prefix, GithubHost, middle + BlobSegment + rest, RawHost);
    assert prefix + RawHost + (middle + BlobSegment + rest) == (prefix + RawHost + middle) + BlobSegment + rest;
    ReplaceAt(prefix + RawHost + middle, BlobSegment, rest, "/");
  }

  lemma BlobUrlMarked(prefix: string, middle: string, rest: string)
    ensures Contains(prefix + GithubHost + middle + BlobSegment + rest, GithubHost)
    ensures Contains(prefix + GithubHost + middle + BlobSegment + rest, BlobSegment)
  {
    var u := prefix + GithubHost + middle + BlobSegment + rest;
    assert u == prefix + GithubHost + (middle + BlobSegment + rest);
    assert u[|prefix|..|prefix| + 10] == GithubHost;
    assert At(u, GithubHost, |prefix|);
    var i := |prefix + GithubHost + middle|;
    assert u == (prefix + GithubHost + middle) + BlobSegment + rest;
    assert u[i..i + 6] == BlobSegment;
    assert At(u, BlobSegment, i);
  }

  /** The example of the function's documentation comment, written in pieces cut where the rewrite acts. */
  lemma DocExample()
    ensures GetOptimizedImageUrl(Some("https://" + "github.com" + "/ghleoperez/ghleoperez.github.io" + "/blob/" + "main/public/images/Avenger-grip-catalog.png"))
      == "https://" + "raw.githubusercontent.com" + "/ghleoperez/ghleoperez.github.io" + "/" + "main/public/images/Avenger-grip-catalog.png"
  {
    var scheme, repo, file := "https://", "/ghleoperez/ghleoperez.github.io", "main/public/images/Avenger-grip-catalog.png";
    NoStartIn([], scheme, GithubHost + (repo + BlobSegment + file), GithubHost);
    assert [] + scheme + (GithubHost + (repo + BlobSegment + file)) == scheme + GithubHost + (repo + BlobSegment + file);
    DocNoEarlierSegment(scheme, repo, file);
    BlobUrl(scheme, repo, file);
  }

  /** In the example no `/blob/` starts before the one after the repository. */
  lemma DocNoEarlierSegment(scheme: string, repo: string, file: string)
    requires scheme == "https://" && repo == "/ghleoperez/ghleoperez.github.io"
    ensures forall j: nat :: j < |scheme + RawHost + repo| ==>
      !At((scheme + RawHost + repo) + BlobSegment + file, BlobSegment, j)
  {
    var t := (scheme + RawHost + repo) + BlobSegment + file;
    NoStartIn([], scheme, RawHost + repo + BlobSegment + file, BlobSegment);
    assert [] + scheme + (RawHost + repo + BlobSegment + file) == t;
    NoStartIn(scheme, RawHost, repo + BlobSegment + file, BlobSegment);
    assert scheme + RawHost + (repo + BlobSegment + file) == t;
    NoStartIn(scheme + RawHost, repo, BlobSegment + file, BlobSegment);
    assert scheme + RawHost + repo + (BlobSegment + file) == t;
  }
}
