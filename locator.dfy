/**
 * RecordLocator: what the crawler reads out of a viewer location.
 *
 * The three lookups are Python `re.search` calls: `id/(\d+)` for the display
 * id, `rec/(\d+)` for the record number and `collection/([^/]+)` for the
 * collection. `re.search` takes the leftmost position where the literal is
 * followed by at least one character of the class, and the greedy `+` takes
 * the longest run of that class from there.
 */
module Locator {
  import opened Wrappers
  import opened Decimal

  /** The two capture classes: `\d` and `[^/]`. */
  datatype CharClass = Digit | NotSlash

  predicate InClass(c: char, k: CharClass) {
    match k
    case Digit => IsDigit(c)
    case NotSlash => c != '/'
  }

  predicate AllIn(s: string, k: CharClass) {
    forall i :: 0 <= i < |s| ==> InClass(s[i], k)
  }

  /** The pattern `lit` followed by one or more class-`k` characters matches at `q`. */
  predicate MatchAt(s: string, lit: string, k: CharClass, q: nat) {
    q + |lit| < |s| && s[q..q + |lit|] == lit && InClass(s[q + |lit|], k)
  }

  /** The greedy run of class-`k` characters of `s` that starts at `j`. */
  function Run(s: string, k: CharClass, j: nat): string
    requires j <= |s|
    decreases |s| - j
  {
    if j < |s| && InClass(s[j], k) then [s[j]] + Run(s, k, j + 1) else []
  }

  /** The run is the longest stretch of class-`k` characters from `j`. */
  lemma {:induction false} RunSpec(s: string, k: CharClass, j: nat)
    requires j <= |s|
    ensures j + |Run(s, k, j)| <= |s| && Run(s, k, j) == s[j..j + |Run(s, k, j)|]
    ensures AllIn(Run(s, k, j), k)
    ensures j + |Run(s, k, j)| == |s| || !InClass(s[j + |Run(s, k, j)|], k)
    decreases |s| - j
  {
    if j < |s| && InClass(s[j], k) {
      RunSpec(s, k, j + 1);
      var r := Run(s, k, j + 1);
      assert Run(s, k, j) == [s[j]] + r;
      assert s[j..j + 1 + |r|] == [s[j]] + s[j + 1..j + 1 + |r|];
    }
  }

  /** The leftmost match position at or after `from`. */
  function FirstMatch(s: string, lit: string, k: CharClass, from: nat): (r: Option<nat>)
    ensures r.Some? ==> from <= r.value && r.value + |lit| < |s|
    decreases |s| - from
  {
    if |s| <= from + |lit| then None
    else if MatchAt(s, lit, k, from) then Some(from)
    else FirstMatch(s, lit, k, from + 1)
  }

  /** `FirstMatch` finds a match, and none lies between `from` and it. */
  lemma {:induction false} FirstMatchSpec(s: string, lit: string, k: CharClass, from: nat)
    ensures FirstMatch(s, lit, k, from).Some? ==>
      from <= FirstMatch(s, lit, k, from).value && MatchAt(s, lit, k, FirstMatch(s, lit, k, from).value)
    ensures forall q: nat :: from <= q && (FirstMatch(s, lit, k, from).None? || q < FirstMatch(s, lit, k, from).value) ==>
      !MatchAt(s, lit, k, q)
    decreases |s| - from
  {
    if |s| > from + |lit| && !MatchAt(s, lit, k, from) {
      FirstMatchSpec(s, lit, k, from + 1);
    }
  }

  /** `re.search(lit + "(" + k + "+)", s).group(1)`, or None when there is no match. */
  function Search(s: string, lit: string, k: CharClass): Option<string> {
    match FirstMatch(s, lit, k, 0)
    case None => None
    case Some(p) => Some(Run(s, k, p + |lit|))
  }

  /** Whatever `Search` finds is a non-empty run of class-`k` characters. */
  lemma SearchInClass(s: string, lit: string, k: CharClass)
    ensures Search(s, lit, k).Some? ==> |Search(s, lit, k).value| > 0 && AllIn(Search(s, lit, k).value, k)
  {
    SearchSpec(s, lit, k);
  }

  /**
   * What `Search` finds: nothing exactly when the pattern matches nowhere;
   * otherwise the greedy run after the leftmost match.
   */
  lemma SearchSpec(s: string, lit: string, k: CharClass)
    ensures Search(s, lit, k).None? <==> forall q: nat :: !MatchAt(s, lit, k, q)
    ensures Search(s, lit, k).Some? ==> |Search(s, lit, k).value| > 0 && AllIn(Search(s, lit, k).value, k)
    ensures Search(s, lit, k).Some? ==>
      exists p: nat :: (MatchAt(s, lit, k, p)
        && (forall q: nat :: q < p ==> !MatchAt(s, lit, k, q))
        && Search(s, lit, k).value == Run(s, k, p + |lit|))
  {
    FirstMatchSpec(s, lit, k, 0);
    var f := FirstMatch(s, lit, k, 0);
    if f.Some? {
      RunSpec(s, k, f.value + |lit|);
      assert InClass(s[f.value + |lit|], k);
    }
  }

  /** `extract_id_from_url`: the digits after the leftmost `id/` that is followed by a digit. */
  function ExtractId(url: string): (r: Option<string>)
    ensures r.Some? ==> IsDigits(r.value)
  {
    SearchInClass(url, "id/", Digit);
    Search(url, "id/", Digit)
  }

  /**
   * `extract_id_from_url` gives None exactly when no `id/` is followed by a
   * digit, and otherwise the whole digit run after the leftmost such `id/`,
   * so `int(image_id)` cannot fail.
   */
  lemma ExtractIdSpec(url: string)
    ensures ExtractId(url).None? <==> forall q: nat :: !MatchAt(url, "id/", Digit, q)
    ensures ExtractId(url).Some? ==> IsDigits(ExtractId(url).value)
    ensures ExtractId(url).Some? ==>
      exists p: nat :: (MatchAt(url, "id/", Digit, p)
        && (forall q: nat :: q < p ==> !MatchAt(url, "id/", Digit, q))
        && ExtractId(url).value == Run(url, Digit, p + 3))
  {
    SearchSpec(url, "id/", Digit);
  }

  const DefaultCollection := "lclma"

  /** The record number: the digits after `rec/`, else a name made from the display id. */
  function RecNumber(url: string, imageId: string): (r: string)
    requires IsDigits(imageId)
    ensures IsDigits(r) <==> exists q: nat :: MatchAt(url, "rec/", Digit, q)
    ensures !IsDigits(r) ==> r == "id_" + imageId
  {
    SearchSpec(url, "rec/", Digit);
    match Search(url, "rec/", Digit)
    case Some(rec) => rec
    case None =>
      var r := "id_" + imageId;
      assert r[0] == 'i';
      r
  }

  /** The collection alias: the text after `collection/` up to the next `/`, else `lclma`. */
  function CollectionOf(url: string): (r: string)
    ensures |r| > 0 && AllIn(r, NotSlash)
    ensures r != DefaultCollection ==> exists q: nat :: MatchAt(url, "collection/", NotSlash, q)
  {
    SearchSpec(url, "collection/", NotSlash);
    match Search(url, "collection/", NotSlash)
    case Some(c) => c
    case None => DefaultCollection
  }

  /**
   * What `Search` reads at a leftmost match: the greedy run after it; with
   * no match anywhere, nothing.
   */
  lemma SearchAt(s: string, lit: string, k: CharClass)
    ensures (forall q: nat :: !MatchAt(s, lit, k, q)) ==> Search(s, lit, k).None?
    ensures forall q: nat :: MatchAt(s, lit, k, q) && (forall i: nat :: i < q ==> !MatchAt(s, lit, k, i)) ==>
      Search(s, lit, k) == Some(Run(s, k, q + |lit|))
  {
    FirstMatchSpec(s, lit, k, 0);
    var f := FirstMatch(s, lit, k, 0);
    forall q: nat | MatchAt(s, lit, k, q) && (forall i: nat :: i < q ==> !MatchAt(s, lit, k, i))
      ensures Search(s, lit, k) == Some(Run(s, k, q + |lit|))
    {
      assert f.Some? && f.value <= q;
      assert MatchAt(s, lit, k, f.value);
      assert f.value == q;
    }
  }

  /**
   * `rec_number`: without a `rec/` followed by a digit, `id_` and the
   * display id; otherwise the whole digit run after the leftmost such `rec/`.
   */
  lemma RecNumberSpec(url: string, imageId: string)
    requires IsDigits(imageId)
    ensures (forall q: nat :: !MatchAt(url, "rec/", Digit, q)) ==> RecNumber(url, imageId) == "id_" + imageId
    ensures forall q: nat :: MatchAt(url, "rec/", Digit, q) && (forall i: nat :: i < q ==> !MatchAt(url, "rec/", Digit, i)) ==>
      RecNumber(url, imageId) == Run(url, Digit, q + 4)
  {
    SearchAt(url, "rec/", Digit);
  }

  /**
   * `collection`: without a `collection/` followed by a character other
   * than `/`, `lclma`; otherwise the whole slash-free run after the
   * leftmost such `collection/`.
   */
  lemma CollectionOfSpec(url: string)
    ensures (forall q: nat :: !MatchAt(url, "collection/", NotSlash, q)) ==> CollectionOf(url) == DefaultCollection
    ensures forall q: nat :: MatchAt(url, "collection/", NotSlash, q) && (forall i: nat :: i < q ==> !MatchAt(url, "collection/", NotSlash, i)) ==>
      CollectionOf(url) == Run(url, NotSlash, q + 11)
  {
    SearchAt(url, "collection/", NotSlash);
  }

  /** Two greedy runs from the same position are the same run. */
  lemma {:induction false} RunUnique(s: string, k: CharClass, j: nat, w: string)
    requires j + |w| <= |s| && s[j..j + |w|] == w && AllIn(w, k)
    requires j + |w| == |s| || !InClass(s[j + |w|], k)
    ensures Run(s, k, j) == w
    decreases |w|
  {
    if w != [] {
      assert s[j] == w[0] && InClass(w[0], k);
      assert s[j + 1..j + 1 + |w[1..]|] == w[1..];
      RunUnique(s, k, j + 1, w[1..]);
    }
  }

  /** A match at `p` with none before it is what `Search` finds. */
  lemma SearchFinds(s: string, lit: string, k: CharClass, p: nat, w: string)
    requires MatchAt(s, lit, k, p)
    requires forall q: nat :: q < p ==> !MatchAt(s, lit, k, q)
    requires p + |lit| + |w| <= |s| && s[p + |lit|..p + |lit| + |w|] == w && AllIn(w, k)
    requires p + |lit| + |w| == |s| || !InClass(s[p + |lit| + |w|], k)
    ensures Search(s, lit, k) == Some(w)
  {
    FirstMatchSpec(s, lit, k, 0);
    RunUnique(s, k, p + |lit|, w);
  }

  // The viewer's location pattern, `.../collection/<alias>/id/<display id>[/rec/<record>]`.

  const Host := "contentdm.lib.nccu.edu.tw"
  const Site := "https://" + Host + "/digital/collection/"

  function Location(collection: string, id: string, rec: Option<string>): string {
    Site + collection + "/id/" + id + (if rec.Some? then "/rec/" + rec.value else "")
  }

  /** Where the slashes of the site prefix are, and the characters in front of them. */
  lemma SiteSlashes(t: nat)
    requires t < |Site| && Site[t] == '/'
    ensures (t == 6 && Site[5] == ':') || (t == 7 && Site[6] == '/') || (t == 33 && Site[32] == 'w')
         || (t == 41 && Site[40] == 'l') || (t == 52 && Site[51] == 'n')
  {
    var scheme, path := "https://", "/digital/collection/";
    assert |Host| == 25 && |path| == 20 && |Site| == 53;
    if t < 8 {
      assert Site[t] == scheme[t];
      assert Site[5] == scheme[5] && Site[6] == scheme[6];
    } else if 33 <= t {
      assert Site[t] == path[t - 33];
      assert Site[32] == Host[24] && Site[40] == path[7] && Site[51] == path[18];
    }
  }

  /** The characters a match at `q` puts in place. */
  lemma MatchChars(s: string, lit: string, k: CharClass, q: nat)
    requires |lit| >= 2 && MatchAt(s, lit, k, q)
    ensures s[q + |lit| - 1] == lit[|lit| - 1] && s[q + |lit| - 2] == lit[|lit| - 2]
    ensures InClass(s[q + |lit|], k)
  {
    assert s[q..q + |lit|][|lit| - 1] == s[q + |lit| - 1];
    assert s[q..q + |lit|][|lit| - 2] == s[q + |lit| - 2];
  }

  /** The pieces of a location, by position. */
  predicate Laid(s: string, collection: string, id: string, rec: Option<string>) {
    var c, d := |collection|, |id|;
    && |s| == 57 + c + d + (if rec.Some? then 5 + |rec.value| else 0)
    && s[..53] == Site
    && s[53..53 + c] == collection
    && s[53 + c..57 + c] == "/id/"
    && s[57 + c..57 + c + d] == id
    && (rec.Some? ==> s[57 + c + d..] == "/rec/" + rec.value)
  }

  lemma LocationLayout(collection: string, id: string, rec: Option<string>)
    ensures Laid(Location(collection, id, rec), collection, id, rec)
  {
    var tail := if rec.Some? then "/rec/" + rec.value else "";
    var s := Location(collection, id, rec);
    assert |Site| == 53;
    assert s == Site + collection + "/id/" + id + tail;
  }

  /** Up to the record suffix, the slashes of a location are those of the site prefix and of `/id/`. */
  lemma LaidSlash(s: string, collection: string, id: string, rec: Option<string>, t: nat)
    requires Laid(s, collection, id, rec) && AllIn(collection, NotSlash) && IsDigits(id)
    requires t < 57 + |collection| + |id| && s[t] == '/'
    ensures t < 53 ==> 0 < t && s[t - 1] == Site[t - 1] && Site[t] == '/'
    ensures t < 53 || t == 53 + |collection| || t == 56 + |collection|
  {
    var c, d := |collection|, |id|;
    if t < 53 {
      assert s[t] == s[..53][t];
      SiteSlashes(t);
      assert s[t - 1] == s[..53][t - 1];
    }
  }

  lemma LaidIdChars(s: string, collection: string, id: string, rec: Option<string>)
    requires Laid(s, collection, id, rec)
    ensures s[54 + |collection|] == 'i' && s[55 + |collection|] == 'd'
  {
    var c := |collection|;
    assert s[54 + c] == s[53 + c..57 + c][1];
    assert s[55 + c] == s[53 + c..57 + c][2];
  }

  lemma NoIdBefore(s: string, collection: string, id: string, rec: Option<string>)
    requires Laid(s, collection, id, rec) && AllIn(collection, NotSlash) && IsDigits(id)
    ensures forall q: nat :: q < 54 + |collection| ==> !MatchAt(s, "id/", Digit, q)
  {
    forall q: nat | q < 54 + |collection|
      ensures !MatchAt(s, "id/", Digit, q)
    {
      if MatchAt(s, "id/", Digit, q) {
        MatchChars(s, "id/", Digit, q);
        LaidSlash(s, collection, id, rec, q + 2);
        LaidIdChars(s, collection, id, rec);
        if q + 2 < 53 {
          SiteSlashes(q + 2);
        }
      }
    }
  }

  lemma {:induction false} LocationId(collection: string, id: string, rec: Option<string>)
    requires AllIn(collection, NotSlash) && IsDigits(id)
    ensures ExtractId(Location(collection, id, rec)) == Some(id)
  {
    var s, c := Location(collection, id, rec), |collection|;
    LocationLayout(collection, id, rec);
    NoIdBefore(s, collection, id, rec);
    assert MatchAt(s, "id/", Digit, 54 + c) by {
      assert s[54 + c..57 + c] == s[53 + c..57 + c][1..];
      assert s[57 + c] == s[57 + c..57 + c + |id|][0];
    }
    assert s[57 + c + |id|..][..0] == [];
    if 57 + c + |id| < |s| {
      assert s[57 + c + |id|] == s[57 + c + |id|..][0];
    }
    SearchFinds(s, "id/", Digit, 54 + c, id);
  }

  lemma NoCollectionBefore(s: string, collection: string, id: string, rec: Option<string>)
    requires Laid(s, collection, id, rec) && AllIn(collection, NotSlash) && IsDigits(id)
    ensures forall q: nat :: q < 42 ==> !MatchAt(s, "collection/", NotSlash, q)
  {
    forall q: nat | q < 42
      ensures !MatchAt(s, "collection/", NotSlash, q)
    {
      if MatchAt(s, "collection/", NotSlash, q) {
        MatchChars(s, "collection/", NotSlash, q);
        LaidSlash(s, collection, id, rec, q + 10);
        SiteSlashes(q + 10);
      }
    }
  }

  lemma {:induction false} LocationCollection(collection: string, id: string, rec: Option<string>)
    requires |collection| > 0 && AllIn(collection, NotSlash) && IsDigits(id)
    ensures CollectionOf(Location(collection, id, rec)) == collection
  {
    var s, c := Location(collection, id, rec), |collection|;
    LocationLayout(collection, id, rec);
    NoCollectionBefore(s, collection, id, rec);
    assert MatchAt(s, "collection/", NotSlash, 42) by {
      assert s[42..53] == Site[42..53];
      assert Site[42..53] == "collection/" by {
        assert Site == "https://" + Host + "/digital/collection/";
      }
      assert s[53] == s[53..53 + c][0];
    }
    assert s[53 + c] == s[53 + c..57 + c][0];
    SearchFinds(s, "collection/", NotSlash, 42, collection);
  }

  lemma NoRecBefore(s: string, collection: string, id: string, rec: Option<string>)
    requires Laid(s, collection, id, rec) && AllIn(collection, NotSlash) && IsDigits(id)
    ensures forall q: nat :: q < 58 + |collection| + |id| ==> !MatchAt(s, "rec/", Digit, q)
  {
    var c, d := |collection|, |id|;
    forall q: nat | q < 58 + c + d
      ensures !MatchAt(s, "rec/", Digit, q)
    {
      if MatchAt(s, "rec/", Digit, q) {
        MatchChars(s, "rec/", Digit, q);
        if q + 3 < 57 + c + d {
          LaidSlash(s, collection, id, rec, q + 3);
          LaidIdChars(s, collection, id, rec);
          if q + 3 < 53 {
            SiteSlashes(q + 3);
          }
        }
      }
    }
  }

  lemma LocationRec(collection: string, id: string, rec: Option<string>)
    requires AllIn(collection, NotSlash) && IsDigits(id)
    requires rec.Some? ==> IsDigits(rec.value)
    ensures RecNumber(Location(collection, id, rec), id) == if rec.Some? then rec.value else "id_" + id
  {
    if rec.Some? {
      LocationRecGiven(collection, id, rec.value);
    } else {
      LocationRecMissing(collection, id);
    }
  }

  /** A location with a `rec/` part gives that record number. */
  lemma LocationRecGiven(collection: string, id: string, rec: string)
    requires AllIn(collection, NotSlash) && IsDigits(id) && IsDigits(rec)
    ensures RecNumber(Location(collection, id, Some(rec)), id) == rec
  {
    LocationLayout(collection, id, Some(rec));
    LaidRec(Location(collection, id, Some(rec)), collection, id, rec);
  }

  lemma LaidRec(s: string, collection: string, id: string, rec: string)
    requires Laid(s, collection, id, Some(rec)) && AllIn(collection, NotSlash) && IsDigits(id) && IsDigits(rec)
    ensures RecNumber(s, id) == rec
  {
    var c, d := |collection|, |id|;
    var p := 58 + c + d;
    NoRecBefore(s, collection, id, Some(rec));
    var t := s[57 + c + d..];
    assert t == "/rec/" + rec;
    assert MatchAt(s, "rec/", Digit, p) by {
      assert s[p..p + 4] == t[1..5];
      assert s[p + 4] == t[5];
    }
    assert s[p + 4..p + 4 + |rec|] == t[5..] == rec;
    SearchFinds(s, "rec/", Digit, p, rec);
  }

  /** A location without a `rec/` part gives the `id_`-prefixed fallback. */
  lemma LocationRecMissing(collection: string, id: string)
    requires AllIn(collection, NotSlash) && IsDigits(id)
    ensures RecNumber(Location(collection, id, None), id) == "id_" + id
  {
    LocationLayout(collection, id, None);
    LaidNoRec(Location(collection, id, None), collection, id);
  }

  lemma LaidNoRec(s: string, collection: string, id: string)
    requires Laid(s, collection, id, None) && AllIn(collection, NotSlash) && IsDigits(id)
    ensures RecNumber(s, id) == "id_" + id
  {
    NoRecBefore(s, collection, id, None);
    assert forall q: nat :: !MatchAt(s, "rec/", Digit, q);
    RecNumberSpec(s, id);
  }

  /**
   * Reading a location built from the pattern gives back its parts: the
   * display id, the collection alias, and the record number or, without
   * `rec/`, the `id_`-prefixed fallback.
   */
  lemma LocationRoundTrip(collection: string, id: string, rec: Option<string>)
    requires |collection| > 0 && AllIn(collection, NotSlash)
    requires IsDigits(id)
    requires rec.Some? ==> IsDigits(rec.value)
    ensures ExtractId(Location(collection, id, rec)) == Some(id)
    ensures CollectionOf(Location(collection, id, rec)) == collection
    ensures RecNumber(Location(collection, id, rec), id) == if rec.Some? then rec.value else "id_" + id
  {
    LocationId(collection, id, rec);
    LocationCollection(collection, id, rec);
    LocationRec(collection, id, rec);
  }

  /** The usage example of the single-record crawler. */
  lemma UsageExample()
    ensures ExtractId(Location("lclma", "3666", Some("39"))) == Some("3666")
    ensures RecNumber(Location("lclma", "3666", Some("39")), "3666") == "39"
    ensures CollectionOf(Location("lclma", "3666", Some("39"))) == "lclma"
  {
    LocationRoundTrip("lclma", "3666", Some("39"));
  }
}
