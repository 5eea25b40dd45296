/**
 * Image URLs and the file names recovered from them
 * (backend/controllers/bookCtrl.js, where a URL is built from the request's
 * protocol and host, the "/images/" directory and the stored file name, and
 * the file name is read back as the second piece of the URL split at
 * "/images/").
 */
module ImagePath {
  import opened Wrappers

  const Separator: string := "/images/"

  /** Protocol, "://" and host: the part of a URL the model treats as opaque. */
  function Origin(protocol: string, host: string): string
  {
    protocol + "://" + host
  }

  /** The URL addBook and updateBook record for an uploaded file. */
  function ImageUrl(origin: string, filename: string): string
  {
    origin + Separator + filename
  }

  /** `sep` starts at position `k` of `s`. */
  predicate OccursAt(s: string, k: int, sep: string)
  {
    0 <= k && k + |sep| <= |s| && s[k..k + |sep|] == sep
  }

  /** The first position at or after `k` where `sep` occurs in `s`, or -1 when there is none. */
  function IndexFrom(s: string, sep: string, k: nat): (r: int)
    requires |sep| > 0
    ensures r == -1 || (k <= r && OccursAt(s, r, sep))
    ensures r == -1 ==> forall j :: k <= j ==> !OccursAt(s, j, sep)
    ensures r != -1 ==> forall j :: k <= j < r ==> !OccursAt(s, j, sep)
    decreases |s| - k
  {
    if k + |sep| > |s| then -1
    else if s[k..k + |sep|] == sep then k
    else IndexFrom(s, sep, k + 1)
  }

  /** Any occurrence with none before it is the one IndexFrom finds. */
  lemma IndexFromIsFirst(s: string, sep: string, p: nat)
    requires |sep| > 0 && OccursAt(s, p, sep)
    requires forall j :: 0 <= j < p ==> !OccursAt(s, j, sep)
    ensures IndexFrom(s, sep, 0) == p
  {
  }

  /**
   * The second piece of `s` split at `sep`: the text between the first and
   * the second occurrence of `sep` (or the end of `s`); none when `sep` does
   * not occur. The piece is the longest start of the text after the first
   * separator in which no separator begins.
   */
  function SecondPiece(s: string, sep: string): (piece: Option<string>)
    requires |sep| > 0
    ensures piece.None? <==> forall j :: !OccursAt(s, j, sep)
    ensures piece.Some? ==> forall j :: !OccursAt(piece.value, j, sep)
    ensures piece.Some? ==> (
      && IndexFrom(s, sep, 0) >= 0
      && var rest := s[IndexFrom(s, sep, 0) + |sep|..];
         && piece.value <= rest
         && (forall j :: 0 <= j < |piece.value| ==> !OccursAt(rest, j, sep))
         && (|piece.value| == |rest| || OccursAt(rest, |piece.value|, sep)))
  {
    var i := IndexFrom(s, sep, 0);
    if i < 0 then None
    else
      var rest := s[i + |sep|..];
      var j := IndexFrom(rest, sep, 0);
      if j < 0 then Some(rest)
      else
        PrefixKeepsNoOccurrence(rest, sep, j);
        Some(rest[..j])
  }

  /** A prefix of `s` that ends before the first occurrence of `sep` holds no occurrence. */
  lemma PrefixKeepsNoOccurrence(s: string, sep: string, n: nat)
    requires |sep| > 0 && n <= |s|
    requires forall j :: 0 <= j < n ==> !OccursAt(s, j, sep)
    ensures forall j :: !OccursAt(s[..n], j, sep)
  {
    forall j
      ensures !OccursAt(s[..n], j, sep)
    {
      if 0 <= j && j + |sep| <= n {
        assert s[..n][j..j + |sep|] == s[j..j + |sep|];
        assert !OccursAt(s, j, sep);
      }
    }
  }

  /**
   * The name of the file unlinked from the image directory: the second piece of
   * the URL, or the text "undefined" that a template literal makes of a
   * missing piece.
   */
  function ImageFileName(url: string): (name: string)
    ensures (forall j :: !OccursAt(url, j, Separator)) ==> name == "undefined"
    ensures forall j :: !OccursAt(name, j, Separator)
  {
    match SecondPiece(url, Separator)
    case Some(f) => f
    case None =>
      SlashFreeHasNoSeparator("undefined");
      "undefined"
  }

  /** A text without a slash holds no separator. */
  lemma SlashFreeHasNoSeparator(t: string)
    requires forall i :: 0 <= i < |t| ==> t[i] != '/'
    ensures forall j :: !OccursAt(t, j, Separator)
  {
    forall j
      ensures !OccursAt(t, j, Separator)
    {
      if 0 <= j && j + |Separator| <= |t| {
        assert t[j..j + |Separator|][0] == t[j];
      }
    }
  }

  /**
   * Round trip: the file name is recovered from the URL built for it, as long
   * as the separator first occurs right after the origin and not inside the
   * file name.
   */
  lemma {:induction false} FileNameRoundTrip(origin: string, filename: string)
    requires forall j :: 0 <= j < |origin| ==> !OccursAt(origin + Separator, j, Separator)
    requires forall j :: !OccursAt(filename, j, Separator)
    ensures ImageFileName(ImageUrl(origin, filename)) == filename
  {
    var url := ImageUrl(origin, filename);
    var head := origin + Separator;
    assert url == head + filename;
    forall j | 0 <= j < |origin|
      ensures !OccursAt(url, j, Separator)
    {
      assert !OccursAt(head, j, Separator);
      assert j + |Separator| <= |head|;
      assert url[j..j + |Separator|] == head[j..j + |Separator|];
    }
    assert url[|origin|..|origin| + |Separator|] == Separator;
    IndexFromIsFirst(url, Separator, |origin|);
    assert url[|origin| + |Separator|..] == filename;
  }

  /**
   * The origin condition of the round trip holds for every origin built from
   * a protocol and a host without a slash, except the host "images".
   */
  lemma {:induction false} OriginWithoutSeparator(protocol: string, host: string)
    requires forall i :: 0 <= i < |protocol| ==> protocol[i] != '/'
    requires forall i :: 0 <= i < |host| ==> host[i] != '/'
    requires host != "images"
    ensures forall j :: 0 <= j < |Origin(protocol, host)| ==>
      !OccursAt(Origin(protocol, host) + Separator, j, Separator)
  {
    var o := Origin(protocol, host);
    var s := o + Separator;
    var p := |protocol|;
    assert s == protocol + "://" + host + Separator;
    assert forall i :: 0 <= i < p ==> s[i] == protocol[i];
    assert s[p] == ':' && s[p + 1] == '/' && s[p + 2] == '/';
    assert forall i :: p + 3 <= i < |o| ==> s[i] == host[i - p - 3];
    assert s[|o|] == '/';
    forall j | 0 <= j < |o|
      ensures !OccursAt(s, j, Separator)
    {
      if j == p + 2 {
        HostBeforeSeparator(host, s[p + 3..]);
        assert s[j..j + |Separator|][1..] == s[p + 3..][..7];
      } else {
        assert s[j] != '/' || s[j + 1] != 'i';
        assert s[j..j + |Separator|][0] == s[j];
        assert s[j..j + |Separator|][1] == s[j + 1];
      }
    }
  }

  /**
   * After "://", the text `host + "/images/"` cannot itself start with
   * "images/" unless the host is "images".
   */
  lemma HostBeforeSeparator(host: string, t: string)
    requires forall i :: 0 <= i < |host| ==> host[i] != '/'
    requires host != "images"
    requires t == host + Separator
    ensures t[..7] != "images/"
  {
    if |host| < 6 {
      assert t[|host|] == '/';
      assert t[..7][|host|] == '/';
    } else if |host| == 6 {
      assert t[..6] == host;
      assert t[..7][..6] == t[..6];
    } else {
      assert t[6] == host[6];
      assert t[..7][6] == t[6];
    }
  }

  /**
   * With the host "images" the round trip fails: the file name comes back
   * with "images/" in front of it.
   */
  lemma {:induction false} ImagesHostBreaksRoundTrip(protocol: string, filename: string)
    requires forall i :: 0 <= i < |protocol| ==> protocol[i] != '/'
    requires forall i :: 0 <= i < |filename| ==> filename[i] != '/'
    ensures ImageFileName(ImageUrl(Origin(protocol, "images"), filename)) == "images/" + filename
  {
    var url := ImageUrl(Origin(protocol, "images"), filename);
    var rest := "images/" + filename;
    assert url == protocol + ":/" + Separator + rest;
    SeparatorAfterScheme(protocol, rest);
    assert url[|protocol| + 2 + |Separator|..] == rest;
    NoSeparatorIn(rest, filename);
  }

  /**
   * In `protocol + ":/" + "/images/" + t` the separator first occurs right
   * after the colon and the first slash.
   */
  lemma SeparatorAfterScheme(protocol: string, t: string)
    requires forall i :: 0 <= i < |protocol| ==> protocol[i] != '/'
    ensures IndexFrom(protocol + ":/" + Separator + t, Separator, 0) == |protocol| + 2
  {
    var s := protocol + ":/" + Separator + t;
    var p := |protocol|;
    assert s[p + 2..p + 2 + |Separator|] == Separator;
    forall j | 0 <= j < p + 2
      ensures !OccursAt(s, j, Separator)
    {
      if j < p {
        assert s[j] == protocol[j];
      } else {
        assert s[p] == ':' && s[p + 2] == '/';
      }
      assert s[j..j + |Separator|][0] == s[j];
      assert s[j..j + |Separator|][1] == s[j + 1];
    }
    IndexFromIsFirst(s, Separator, p + 2);
  }

  /** "images/" followed by a name without a slash holds no separator. */
  lemma NoSeparatorIn(rest: string, filename: string)
    requires forall i :: 0 <= i < |filename| ==> filename[i] != '/'
    requires rest == "images/" + filename
    ensures forall j :: !OccursAt(rest, j, Separator)
  {
    forall j | 0 <= j
      ensures !OccursAt(rest, j, Separator)
    {
      if j == 6 && 14 <= |rest| {
        assert rest[j + 7] == filename[6];
      } else if j < 6 {
        assert rest[j] == "images/"[j];
      } else if j > 6 && j < |rest| {
        assert rest[j] == filename[j - 7];
      }
      if j + |Separator| <= |rest| {
        assert rest[j..j + |Separator|][0] == rest[j];
        assert rest[j..j + |Separator|][7] == rest[j + 7];
      }
    }
  }
}
