/**
 * AssetResolver and file naming: the strings the crawler builds around one
 * image. The info request follows section 2.2 of the IIIF Image API 2.1
 * (`{base}/{identifier}/info.json`), the image request its section 2.1
 * (`{base}/{identifier}/{region}/{size}/{rotation}/{quality}.{format}`),
 * where the image identifier is `<collection>:<info id>`.
 */
module Iiif {
  import opened Wrappers
  import opened Decimal

  const ServiceBase := "https://contentdm.lib.nccu.edu.tw/iiif/2"
  const DownloadDir := "downloaded_images"

  /** The IIIF info request URI: `{base}/{identifier}/info.json`. */
  function InfoRequest(base: string, identifier: string): string {
    base + "/" + identifier + "/info.json"
  }

  /** The IIIF image request URI: `{base}/{identifier}/{region}/{size}/{rotation}/{quality}.{format}`. */
  function ImageRequest(base: string, region: string, size: string, rotation: string, quality: string, format: string): string {
    base + ("/" + region + "/" + size + "/" + rotation + "/" + quality + "." + format)
  }

  /** The metadata URL for one info id: `.../iiif/2/{collection}:{info_id}/info.json`. */
  function InfoUrl(collection: string, infoId: int): (u: string)
    ensures u == InfoRequest(ServiceBase, collection + ":" + IntToString(infoId))
  {
    ServiceBase + "/" + collection + ":" + IntToString(infoId) + "/info.json"
  }

  /**
   * The full-size image URL built from the info document's `@id`; None when
   * `@id` is missing or empty (`if not base_url`).
   */
  function ImageUrl(baseId: Option<string>): (r: Option<string>)
    ensures r.Some? <==> baseId.Some? && baseId.value != ""
    ensures r.Some? ==> r.value == ImageRequest(baseId.value, "full", "full", "0", "default", "jpg")
  {
    if baseId.None? || baseId.value == "" then None
    else Some(baseId.value + "/full/full/0/default.jpg")
  }

  /** `os.path.join(download_dir, f"rec_{rec_number}_id_{image_id}.jpg")`. */
  function FileName(recNumber: string, imageId: string): string {
    DownloadDir + "/rec_" + recNumber + "_id_" + imageId + ".jpg"
  }

  lemma CharOf(a: string, sep: char, b: string, i: nat)
    ensures i < |a| + 1 + |b| ==>
      (a + [sep] + b)[i] == if i < |a| then a[i] else if i == |a| then sep else b[i - |a| - 1]
  {
  }

  /** Splitting at the last separator: the part after it cannot hold the separator. */
  lemma {:induction false} SplitAtLast(a1: string, b1: string, a2: string, b2: string, sep: char)
    requires sep !in b1 && sep !in b2
    requires a1 + [sep] + b1 == a2 + [sep] + b2
    ensures a1 == a2 && b1 == b2
  {
    var s := a1 + [sep] + b1;
    if |b1| < |b2| {
      CharOf(a1, sep, b1, |a1|);
      CharOf(a2, sep, b2, |a1|);
      assert false;
    } else if |b2| < |b1| {
      CharOf(a1, sep, b1, |a2|);
      CharOf(a2, sep, b2, |a2|);
      assert false;
    }
    assert b1 == s[|s| - |b1|..];
    assert a1 == s[..|a1|];
  }

  lemma NotInConcat(a: string, b: string, c: char)
    requires c !in a && c !in b
    ensures c !in a + b
  {
    forall j | 0 <= j < |a + b| ensures (a + b)[j] != c {
      if j >= |a| { assert (a + b)[j] == b[j - |a|]; }
    }
  }

  lemma CancelAround(p: string, a: string, b: string, t: string)
    requires p + a == p + b || a + t == b + t
    ensures a == b
  {
    if p + a == p + b {
      assert a == (p + a)[|p|..] && b == (p + b)[|p|..];
    } else {
      assert a == (a + t)[..|a|] && b == (b + t)[..|b|];
    }
  }

  /** Different info ids, or different collections, ask for different info documents. */
  lemma {:induction false} InfoUrlInjective(c1: string, i1: int, c2: string, i2: int)
    requires InfoUrl(c1, i1) == InfoUrl(c2, i2)
    ensures c1 == c2 && i1 == i2
  {
    var n1, n2 := IntToString(i1), IntToString(i2);
    var p := ServiceBase + "/";
    var sfx := "/info.json";
    assert InfoUrl(c1, i1) == (p + c1) + [':'] + (n1 + sfx);
    assert InfoUrl(c2, i2) == (p + c2) + [':'] + (n2 + sfx);
    IntToStringAlphabet(i1);
    IntToStringAlphabet(i2);
    NotInConcat(n1, sfx, ':');
    NotInConcat(n2, sfx, ':');
    SplitAtLast(p + c1, n1 + sfx, p + c2, n2 + sfx, ':');
    CancelAround(p, c1, c2, []);
    CancelAround([], n1, n2, sfx);
    IntToStringInjective(i1, i2);
  }

  /** Two downloads write the same file only for the same record number and display id. */
  lemma {:induction false} FileNameInjective(r1: string, d1: string, r2: string, d2: string)
    requires IsDigits(d1) && IsDigits(d2)
    requires FileName(r1, d1) == FileName(r2, d2)
    ensures r1 == r2 && d1 == d2
  {
    var p := DownloadDir + "/rec_";
    var ext := ".jpg";
    assert FileName(r1, d1) == (p + r1 + "_id") + ['_'] + (d1 + ext);
    assert FileName(r2, d2) == (p + r2 + "_id") + ['_'] + (d2 + ext);
    assert '_' !in d1 + ext by {
      forall j | 0 <= j < |d1 + ext| ensures (d1 + ext)[j] != '_' {
        if j >= |d1| { assert (d1 + ext)[j] == ext[j - |d1|]; }
      }
    }
    assert '_' !in d2 + ext by {
      forall j | 0 <= j < |d2 + ext| ensures (d2 + ext)[j] != '_' {
        if j >= |d2| { assert (d2 + ext)[j] == ext[j - |d2|]; }
      }
    }
    SplitAtLast(p + r1 + "_id", d1 + ext, p + r2 + "_id", d2 + ext, '_');
    assert r1 == (p + r1 + "_id")[|p|..|p| + |r1|];
    assert r2 == (p + r2 + "_id")[|p|..|p| + |r2|];
    assert d1 == (d1 + ext)[..|d1|] && d2 == (d2 + ext)[..|d2|];
  }
}
