/**
 * Parsing of the public URLs that the storage service hands out
 * (src/lib/storageUtils.ts): `pathFromPublicUrl` recovers "bucket/object
 * path" from a URL, and `deleteByPublicUrl` splits it into the bucket and
 * the object path it asks the storage service to remove.
 */
module StorageUtils {
  import opened Wrappers

  /** The marker that precedes the bucket in every public URL. */
  const Marker: string := "/storage/v1/object/public/"

  /** `pat` occurs in `s` starting at index `k`. */
  predicate OccursAt(s: string, pat: string, k: nat) {
    k + |pat| <= |s| && s[k..k + |pat|] == pat
  }

  /** `s.indexOf(pat, from)`: the first index at or after `from` where `pat`
      occurs, or None (JavaScript's -1). */
  function IndexOfFrom(s: string, pat: string, from: nat): (r: Option<nat>)
    ensures r.Some? ==> from <= r.value && OccursAt(s, pat, r.value)
    ensures r.Some? ==> forall k :: from <= k < r.value ==> !OccursAt(s, pat, k)
    ensures r.None? ==> forall k :: from <= k ==> !OccursAt(s, pat, k)
    decreases |s| - from
  {
    if from + |pat| > |s| then None
    else if s[from..from + |pat|] == pat then Some(from)
    else IndexOfFrom(s, pat, from + 1)
  }

  /** `s.indexOf(pat)`. */
  function IndexOf(s: string, pat: string): (r: Option<nat>)
    ensures r.Some? ==> OccursAt(s, pat, r.value)
    ensures r.Some? ==> forall k :: 0 <= k < r.value ==> !OccursAt(s, pat, k)
    ensures r.None? ==> forall k :: 0 <= k ==> !OccursAt(s, pat, k)
  {
    IndexOfFrom(s, pat, 0)
  }

  /** `pathFromPublicUrl`: the text after the first marker, provided it holds
      a '/' (a bucket and a path inside it); otherwise None. */
  function PathFromPublicUrl(url: string): (r: Option<string>)
    // no marker: null
    ensures IndexOf(url, Marker).None? ==> r.None?
    // a path exactly when the text after the first marker holds a '/'
    ensures r.Some? <==> IndexOf(url, Marker).Some?
                         && '/' in url[IndexOf(url, Marker).value + |Marker|..]
    ensures r.Some? ==> r.value == url[IndexOf(url, Marker).value + |Marker|..]
    ensures r.Some? ==> |Marker + r.value| <= |url| && url[|url| - |Marker + r.value|..] == Marker + r.value
    ensures r.Some? ==> '/' in r.value
  {
    match IndexOf(url, Marker)
    case None => None
    case Some(idx) =>
      var rest := url[idx + |Marker|..];
      SuffixAtOccurrence(url, Marker, idx);
      match IndexOf(rest, "/")
      case None =>
        SlashAbsent(rest);
        None
      case Some(k) =>
        assert rest[k..k + 1] == "/";
        assert rest[k] == '/';
        Some(rest)
  }

  /** Where `pat` occurs, the rest of `s` is `pat` followed by what comes
      after it. */
  lemma SuffixAtOccurrence(s: string, pat: string, k: nat)
    requires OccursAt(s, pat, k)
    ensures s[k..] == pat + s[k + |pat|..]
  {
    assert s[k..] == s[k..k + |pat|] + s[k + |pat|..];
  }

  /** A text in which "/" occurs nowhere holds no '/'. */
  lemma SlashAbsent(s: string)
    requires forall i :: 0 <= i ==> !OccursAt(s, "/", i)
    ensures '/' !in s
  {
    forall i | 0 <= i < |s| ensures s[i] != '/' {
      assert !OccursAt(s, "/", i);
      assert s[i..i + 1] == [s[i]];
    }
  }

  /** If nothing before the marker combines with the marker's first
      characters into another marker, the path after the marker comes back
      unchanged.  The hypothesis is needed: see StraddlingPrefixBreaksRoundTrip. */
  lemma PathRoundTrip(prefix: string, bucket: string, objectPath: string)
    requires IndexOf(prefix + Marker[..|Marker| - 1], Marker).None?
    ensures PathFromPublicUrl(prefix + Marker + bucket + "/" + objectPath)
            == Some(bucket + "/" + objectPath)
  {
    var tail := bucket + "/" + objectPath;
    var url := prefix + Marker + bucket + "/" + objectPath;
    assert url == prefix + Marker + tail;
    var head := prefix + Marker[..|Marker| - 1];
    assert url[..|head|] == head;
    assert url[|prefix|..|prefix| + |Marker|] == Marker;
    assert OccursAt(url, Marker, |prefix|);
    forall k | 0 <= k < |prefix| ensures !OccursAt(url, Marker, k) {
      assert url[k..k + |Marker|] == head[k..k + |Marker|];
      assert !OccursAt(head, Marker, k);
    }
    assert IndexOf(url, Marker) == Some(|prefix|);
    assert url[|prefix| + |Marker|..] == tail;
    assert tail[|bucket|] == '/';
  }

  /** A prefix that does not itself contain the marker is not enough for the
      round trip: the marker begins and ends with '/', so a prefix ending in
      the marker minus its last '/' yields an earlier, overlapping occurrence. */
  lemma StraddlingPrefixBreaksRoundTrip()
    ensures var prefix := "x/storage/v1/object/public";
            IndexOf(prefix, Marker).None?
            && PathFromPublicUrl(prefix + Marker + "b" + "/" + "o") != Some("b/o")
  {
    var prefix := "x/storage/v1/object/public";
    assert |prefix| == |Marker|;
    assert prefix[0] != Marker[0];
    assert !OccursAt(prefix, Marker, 0);
    assert IndexOfFrom(prefix, Marker, 1).None?;
    var url := prefix + Marker + "b" + "/" + "o";
    assert url[1..1 + |Marker|] == prefix[1..] + Marker[..1];
    assert prefix[1..] + Marker[..1] == Marker;
    assert OccursAt(url, Marker, 1);
    var idx := IndexOf(url, Marker).value;
    assert idx <= 1;
    assert |url[idx + |Marker|..]| > 3;
  }

  /** `path.split('/')`: the segments between the separators; there is one
      more segment than there are separators. */
  function Split(s: string): (r: seq<string>)
    ensures |r| >= 1
    ensures forall i :: 0 <= i < |r| ==> '/' !in r[i]
  {
    if s == [] then [""]
    else if s[0] == '/' then [""] + Split(s[1..])
    else
      var t := Split(s[1..]);
      [[s[0]] + t[0]] + t[1..]
  }

  /** `parts.join('/')`. */
  function Join(parts: seq<string>): string {
    if |parts| == 0 then ""
    else if |parts| == 1 then parts[0]
    else parts[0] + "/" + Join(parts[1..])
  }

  /** The first segment starts the joined text, the last one ends it, and
      two or more segments are separated by a slash. */
  lemma {:induction false} JoinEnds(parts: seq<string>)
    requires |parts| >= 1
    ensures parts[0] <= Join(parts)
    ensures var last := parts[|parts| - 1]; var r := Join(parts);
            |last| <= |r| && r[|r| - |last|..] == last
    ensures |parts| >= 2 ==> Join(parts)[|parts[0]|] == '/'
  {
    if |parts| >= 2 {
      var more := Join(parts[1..]);
      JoinEnds(parts[1..]);
      assert Join(parts) == parts[0] + "/" + more;
      assert parts[1..][|parts| - 2] == parts[|parts| - 1];
    }
  }

  /** Joining the segments of a split gives back the original text. */
  lemma {:induction false} JoinSplit(s: string)
    ensures Join(Split(s)) == s
  {
    if s != [] {
      var t := Split(s[1..]);
      JoinSplit(s[1..]);
      if s[0] == '/' {
        assert Split(s) == [""] + t;
        assert Join(Split(s)) == "" + "/" + Join(t);
      } else {
        assert Split(s) == [[s[0]] + t[0]] + t[1..];
        if |t| == 1 {
          assert Join(Split(s)) == [s[0]] + t[0];
        } else {
          assert Join(Split(s)) == [s[0]] + t[0] + "/" + Join(t[1..]);
          assert Join(t) == t[0] + "/" + Join(t[1..]);
        }
        assert s == [s[0]] + s[1..];
      }
    }
  }

  /** A text with a separator splits into at least two segments. */
  lemma {:induction false} SplitAtSeparator(s: string)
    requires '/' in s
    ensures |Split(s)| >= 2
  {
    if s[0] != '/' {
      assert '/' in s[1..] by {
        var i :| 0 <= i < |s| && s[i] == '/';
        assert s[1..][i - 1] == '/';
      }
      SplitAtSeparator(s[1..]);
    }
  }

  /** A separator-free word in front of `rest` is glued onto the first
      segment of `rest`. */
  lemma {:induction false} SplitWordPrefix(w: string, rest: string)
    requires '/' !in w
    ensures Split(w + rest) == [w + Split(rest)[0]] + Split(rest)[1..]
  {
    if w != [] {
      assert (w + rest)[0] == w[0];
      assert (w + rest)[1..] == w[1..] + rest;
      SplitWordPrefix(w[1..], rest);
      assert [w[0]] + (w[1..] + Split(rest)[0]) == w + Split(rest)[0];
    } else {
      var t := Split(rest);
      assert w + rest == rest;
      assert w + t[0] == t[0];
      assert t == [t[0]] + t[1..];
    }
  }

  /** Splitting a join of separator-free segments recovers the segments. */
  lemma {:induction false} SplitJoin(parts: seq<string>)
    requires |parts| >= 1
    requires forall i :: 0 <= i < |parts| ==> '/' !in parts[i]
    ensures Split(Join(parts)) == parts
  {
    if |parts| == 1 {
      SplitWordPrefix(parts[0], "");
      assert parts[0] + "" == parts[0];
    } else {
      var more := Join(parts[1..]);
      SplitJoin(parts[1..]);
      assert Join(parts) == parts[0] + ("/" + more);
      SplitWordPrefix(parts[0], "/" + more);
      assert Split("/" + more) == [""] + Split(more);
      assert parts[0] + "" == parts[0];
    }
  }

  /** The removal `deleteByPublicUrl` asks the storage service for. */
  datatype RemoveRequest = RemoveRequest(bucket: string, objectPath: string)

  /** `deleteByPublicUrl`: no removal when the URL yields no path; otherwise
      the first segment names the bucket and the rest, re-joined, the object. */
  function DeleteByPublicUrl(url: string): (r: Option<RemoveRequest>)
    ensures r.None? <==> PathFromPublicUrl(url).None? || PathFromPublicUrl(url).value == ""
    ensures r.Some? ==> '/' !in r.value.bucket
    ensures r.Some? ==> r.value.bucket + "/" + r.value.objectPath == PathFromPublicUrl(url).value
  {
    match PathFromPublicUrl(url)
    case None => None
    case Some(path) =>
      var segments := Split(path);
      SplitAtSeparator(path);
      JoinSplit(path);
      Some(RemoveRequest(segments[0], Join(segments[1..])))
  }

  /** Deleting by the URL of an object removes exactly that object. */
  lemma DeleteRoundTrip(prefix: string, bucket: string, objectPath: string)
    requires IndexOf(prefix + Marker[..|Marker| - 1], Marker).None?
    requires '/' !in bucket
    ensures DeleteByPublicUrl(prefix + Marker + bucket + "/" + objectPath)
            == Some(RemoveRequest(bucket, objectPath))
  {
    PathRoundTrip(prefix, bucket, objectPath);
    SplitAfterBucket(bucket, objectPath);
  }

  /** A path made of a `/`-free bucket, a `/` and an object path splits into
      that bucket and segments that join back into the object path. */
  lemma SplitAfterBucket(bucket: string, objectPath: string)
    requires '/' !in bucket
    ensures var segments := Split(bucket + "/" + objectPath);
            segments[0] == bucket && Join(segments[1..]) == objectPath
  {
    var path := bucket + "/" + objectPath;
    SplitWordPrefix(bucket, "/" + objectPath);
    assert path == bucket + ("/" + objectPath);
    var rest := Split("/" + objectPath);
    assert rest == [""] + Split(objectPath);
    var segments := Split(path);
    assert segments == [bucket + ""] + rest[1..];
    assert segments[0] == bucket;
    assert segments[1..] == Split(objectPath);
    JoinSplit(objectPath);
  }
}
