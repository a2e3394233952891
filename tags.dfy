/**
 * The technology-tag text of the project form: submitting splits it on commas, trims each
 * piece and drops the empty ones; editing joins the stored tags with `", "`.
 */
module Tags {
  /**
   * The characters `String.prototype.trim` removes: ECMAScript white space (tab, vertical
   * tab, form feed, space, no-break space, byte order mark and the space separators) and the
   * line terminators.
   */
  predicate IsSpace(c: char) {
    || c == '\t' || c == '\n' || c == '\U{000B}' || c == '\U{000C}' || c == '\r' || c == ' '
    || c == '\U{00A0}' || c == '\U{1680}' || ('\U{2000}' <= c <= '\U{200A}')
    || c == '\U{2028}' || c == '\U{2029}' || c == '\U{202F}' || c == '\U{205F}' || c == '\U{3000}' || c == '\U{FEFF}'
  }

  /** `s.split(',')`: the pieces between commas, at least one. */
  function Split(s: string): (parts: seq<string>)
    ensures |parts| >= 1
  {
    if s == [] then [""]
    else if s[0] == ',' then [""] + Split(s[1..])
    else Grow(s[0], Split(s[1..]))
  }

  /** `c` put in front of the first piece. */
  function Grow(c: char, parts: seq<string>): (r: seq<string>)
    requires |parts| >= 1
    ensures |r| == |parts|
  {
    [[c] + parts[0]] + parts[1..]
  }

  /** Growing the first piece does not touch the pieces after it. */
  lemma GrowAppend(c: char, p: seq<string>, q: seq<string>)
    requires |p| >= 1
    ensures Grow(c, p + q) == Grow(c, p) + q
  {
    assert (p + q)[0] == p[0];
    assert (p + q)[1..] == p[1..] + q;
  }

  function TrimStart(s: string): string
  {
    if s != [] && IsSpace(s[0]) then TrimStart(s[1..]) else s
  }

  function TrimEnd(s: string): string
  {
    if s != [] && IsSpace(s[|s| - 1]) then TrimEnd(s[..|s| - 1]) else s
  }

  /** `t.trim()`. */
  function Trim(s: string): string
  {
    TrimEnd(TrimStart(s))
  }

  /** Neither end is white space. */
  predicate Trimmed(t: string) {
    t == [] || (!IsSpace(t[0]) && !IsSpace(t[|t| - 1]))
  }

  /** A tag the form can round-trip: non-empty, trimmed, no comma. */
  predicate IsTag(t: string) {
    t != [] && Trimmed(t) && ',' !in t
  }

  /** `.map(t => t.trim()).filter(t => t)` over the pieces. */
  function CleanParts(parts: seq<string>): seq<string>
  {
    if parts == [] then [] else Keep(parts[0]) + CleanParts(parts[1..])
  }

  /** One piece after trimming: kept unless empty. */
  function Keep(part: string): seq<string>
  {
    var t := Trim(part);
    if t == "" then [] else [t]
  }

  /** The tag parse of `handleSubmit`. */
  function ParseTags(text: string): seq<string>
  {
    CleanParts(Split(text))
  }

  /** `tags.join(', ')`. */
  function JoinTags(tags: seq<string>): string
  {
    if tags == [] then ""
    else if |tags| == 1 then tags[0]
    else tags[0] + ", " + JoinTags(tags[1..])
  }

  /** The pieces joined back with `,`. */
  function JoinComma(parts: seq<string>): string
  {
    if parts == [] then ""
    else if |parts| == 1 then parts[0]
    else parts[0] + "," + JoinComma(parts[1..])
  }

  /** Splitting loses nothing: the pieces put back together with commas are the text. */
  lemma {:induction false} SplitJoinComma(s: string)
    ensures JoinComma(Split(s)) == s
  {
    if s != [] {
      SplitJoinComma(s[1..]);
      var rest := Split(s[1..]);
      if s[0] == ',' {
        assert ([""] + rest)[1..] == rest;
        assert s == [','] + s[1..];
      } else {
        var parts := [[s[0]] + rest[0]] + rest[1..];
        if |rest| == 1 {
          assert s == [s[0]] + s[1..];
        } else {
          assert parts[1..] == rest[1..];
          assert JoinComma(rest) == rest[0] + "," + JoinComma(rest[1..]);
          assert s == [s[0]] + s[1..];
        }
      }
    }
  }

  /** A comma splits the text in two: the pieces are those of each side. */
  lemma {:induction false} SplitAtComma(a: string, b: string)
    ensures Split(a + "," + b) == Split(a) + Split(b)
  {
    var whole := a + "," + b;
    if a == [] {
      assert whole[1..] == b;
    } else {
      SplitAtComma(a[1..], b);
      assert whole[0] == a[0];
      assert whole[1..] == a[1..] + "," + b;
      if a[0] != ',' {
        GrowAppend(a[0], Split(a[1..]), Split(b));
      }
    }
  }

  /** Text without a comma is one piece. */
  lemma {:induction false} SplitNoComma(t: string)
    requires ',' !in t
    ensures Split(t) == [t]
  {
    if t != [] {
      SplitNoComma(t[1..]);
      assert t == [t[0]] + t[1..];
    }
  }

  /**
   * Trimming cuts a white-space prefix and a white-space suffix and nothing more: what is
   * left is a slice of the text whose ends are not white space.
   */
  lemma TrimSpec(s: string)
    ensures Trimmed(Trim(s))
    ensures exists i, j :: (0 <= i <= j <= |s| && Trim(s) == s[i..j] &&
      (forall k :: 0 <= k < i ==> IsSpace(s[k])) && (forall k :: j <= k < |s| ==> IsSpace(s[k])))
    ensures Trimmed(s) ==> Trim(s) == s
  {
    var i := TrimStartCut(s);
    var j := TrimEndCut(TrimStart(s));
    var u := TrimStart(s);
    assert Trim(s) == s[i..i + j];
    if j > 0 {
      assert Trim(s)[0] == u[0] == s[i];
      assert Trim(s)[j - 1] == u[j - 1];
    }
    forall k | i + j <= k < |s|
      ensures IsSpace(s[k])
    {
      assert s[k] == u[k - i];
    }
  }

  lemma {:induction false} TrimStartCut(s: string) returns (i: nat)
    ensures i <= |s| && TrimStart(s) == s[i..] && forall k :: 0 <= k < i ==> IsSpace(s[k])
    ensures i < |s| ==> !IsSpace(s[i])
    ensures Trimmed(s) ==> i == 0
  {
    if s != [] && IsSpace(s[0]) {
      var i' := TrimStartCut(s[1..]);
      i := i' + 1;
      assert s[1..][i'..] == s[i..];
      forall k | 0 <= k < i
        ensures IsSpace(s[k])
      {
        if k > 0 {
          assert s[k] == s[1..][k - 1];
        }
      }
    } else {
      i := 0;
    }
  }

  lemma {:induction false} TrimEndCut(s: string) returns (j: nat)
    ensures j <= |s| && TrimEnd(s) == s[..j] && forall k :: j <= k < |s| ==> IsSpace(s[k])
    ensures j > 0 ==> !IsSpace(s[j - 1])
    ensures Trimmed(s) ==> j == |s|
  {
    if s != [] && IsSpace(s[|s| - 1]) {
      var n := |s| - 1;
      j := TrimEndCut(s[..n]);
      assert s[..n][..j] == s[..j];
      forall k | j <= k < |s|
        ensures IsSpace(s[k])
      {
        if k < n {
          assert s[k] == s[..n][k];
        }
      }
    } else {
      j := |s|;
    }
  }

  /** No piece holds a comma. */
  lemma {:induction false} SplitCommaFree(s: string)
    ensures forall i :: 0 <= i < |Split(s)| ==> ',' !in Split(s)[i]
  {
    if s != [] {
      SplitCommaFree(s[1..]);
      if s[0] != ',' {
        var parts := Split(s[1..]);
        assert ',' !in [s[0]] + parts[0];
      }
    }
  }

  /** Cleaning pieces one list after another is cleaning each and concatenating. */
  lemma {:induction false} CleanPartsAppend(x: seq<string>, y: seq<string>)
    ensures CleanParts(x + y) == CleanParts(x) + CleanParts(y)
  {
    if x == [] {
      assert x + y == y;
    } else {
      CleanPartsAppend(x[1..], y);
      assert x + y == [x[0]] + (x[1..] + y);
      CleanPartsCons(x[0], x[1..] + y);
    }
  }

  lemma CleanPartsCons(p: string, rest: seq<string>)
    ensures CleanParts([p] + rest) == Keep(p) + CleanParts(rest)
  {
    assert ([p] + rest)[1..] == rest;
  }

  /** Cleaned comma-free pieces are tags. */
  lemma {:induction false} CleanPartsAreTags(parts: seq<string>)
    requires forall i :: 0 <= i < |parts| ==> ',' !in parts[i]
    ensures forall i :: 0 <= i < |CleanParts(parts)| ==> IsTag(CleanParts(parts)[i])
  {
    if parts != [] {
      CleanPartsAreTags(parts[1..]);
      var t := Trim(parts[0]);
      TrimSpec(parts[0]);
      var i, j :| 0 <= i <= j <= |parts[0]| && t == parts[0][i..j];
      assert ',' !in t by {
        assert forall k :: 0 <= k < |t| ==> t[k] == parts[0][i + k];
      }
    }
  }

  /**
   * The parse of `handleSubmit`: every tag is non-empty, has no white space at either end,
   * and holds no comma.
   */
  lemma ParseTagsAreTags(text: string)
    ensures forall i :: 0 <= i < |ParseTags(text)| ==> IsTag(ParseTags(text)[i])
  {
    SplitCommaFree(text);
    CleanPartsAreTags(Split(text));
  }

  /**
   * The parse keeps the order of the text and drops nothing but empty pieces: the tags of
   * text around a comma are those of the left side and then those of the right side, and a
   * piece without a comma gives its trimmed self unless that is empty.
   */
  lemma ParseTagsAtComma(a: string, b: string)
    ensures ParseTags(a + "," + b) == ParseTags(a) + ParseTags(b)
  {
    SplitAtComma(a, b);
    CleanPartsAppend(Split(a), Split(b));
  }

  lemma ParseTagsPiece(t: string)
    requires ',' !in t
    ensures ParseTags(t) == Keep(t)
  {
    SplitNoComma(t);
    assert CleanParts([t]) == Keep(t) + CleanParts([t][1..]);
    assert [t][1..] == [];
  }

  /** A space before the text is trimmed away with the first piece. */
  lemma ParseTagsSpace(s: string)
    ensures ParseTags(" " + s) == ParseTags(s)
  {
    var parts := Split(s);
    assert (" " + s)[1..] == s;
    assert Split(" " + s) == Grow(' ', parts);
    assert TrimStart(" " + parts[0]) == TrimStart(parts[0]) by {
      assert (" " + parts[0])[1..] == parts[0];
    }
    assert Grow(' ', parts) == [" " + parts[0]] + parts[1..];
    assert parts == [parts[0]] + parts[1..];
  }

  /** Editing then saving keeps the tags: the joined text parses back to the same tags. */
  lemma {:induction false} ParseJoin(tags: seq<string>)
    requires forall i :: 0 <= i < |tags| ==> IsTag(tags[i])
    ensures ParseTags(JoinTags(tags)) == tags
  {
    if tags == [] {
    } else if |tags| == 1 {
      ParseTagsPiece(tags[0]);
      TrimSpec(tags[0]);
    } else {
      var rest := JoinTags(tags[1..]);
      ParseJoin(tags[1..]);
      assert JoinTags(tags) == tags[0] + "," + (" " + rest);
      ParseTagsAtComma(tags[0], " " + rest);
      ParseTagsSpace(rest);
      ParseTagsPiece(tags[0]);
      TrimSpec(tags[0]);
      assert tags == [tags[0]] + tags[1..];
    }
  }
}
