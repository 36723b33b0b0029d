/**
 * The image resolver service (birdImage/main.go): given a bird name it asks an image-search
 * provider for one photo, picks the full-size URL (or the regular one), raises the width and
 * quality parameters written into that URL, and answers the fixed placeholder image whenever
 * the search cannot be completed.
 *
 * The search itself (the query URL, `http.Get`, `io.ReadAll`, `json.Unmarshal`) is the
 * parameter `search`: for each bird name, the outcome of that chain of calls.
 */
module BirdImage {
  import opened GoStrings
  import opened Upstream

  /** The resolution variants of one search hit. */
  datatype Urls = Urls(thumb: string, small: string, regular: string, full: string)

  /** One search hit. */
  datatype Links = Links(urls: Urls)

  /** The decoded search response. */
  datatype ImageResponse = ImageResponse(results: seq<Links>)

  /** The placeholder answered whenever no image can be resolved: the literal of birdImage/main.go:33, in two parts. */
  function DefaultImage(): string {
    "https://www.pokemonmillennium.net" + "/wp-content/uploads/2015/11/missingno.png"
  }

  /** The candidate taken from a hit: `Full` unless it is empty, then `Regular`. */
  function BaseImage(u: Urls): string {
    if u.full == "" then u.regular else u.full
  }

  /** The first literal rewrite, `w=200` to `w=2000`: the URL between the two rewrites. */
  function WidthRewrite(base: string): string {
    ReplaceAll(base, "w=200", "w=2000")
  }

  /** The two literal rewrites, in order: `w=200` to `w=2000`, then `q=80` to `q=100`. */
  function QualityRewrite(base: string): string {
    ReplaceAll(WidthRewrite(base), "q=80", "q=100")
  }

  /**
   * The rewrite grows the URL by one character per rewritten `w=200` and one per rewritten
   * `q=80`, and never shortens it.
   */
  lemma QualityRewriteLength(base: string)
    ensures |QualityRewrite(base)|
         == |base| + Count(base, "w=200") + Count(WidthRewrite(base), "q=80")
    ensures |QualityRewrite(base)| >= |base|
  {
    ReplaceAllLength(base, "w=200", "w=2000");
    ReplaceAllLength(WidthRewrite(base), "q=80", "q=100");
  }

  /** The rewrite changes nothing exactly when neither `w=200` nor `q=80` occurs. */
  lemma QualityRewriteUnchangedIff(base: string)
    ensures QualityRewrite(base) == base
        <==> !Contains(base, "w=200") && !Contains(base, "q=80")
  {
    QualityRewriteLength(base);
    CountZeroIff(base, "w=200");
    if !Contains(base, "w=200") {
      ReplaceAllNoMatch(base, "w=200", "w=2000");
      ReplaceAllUnchangedIff(base, "q=80", "q=100");
    }
  }

  /** No `q=80` is left after the rewrite, whatever the input. */
  lemma QualityRewriteRemovesLowQuality(base: string)
    ensures !Contains(QualityRewrite(base), "q=80")
  {
    var p, r := "q=80", "q=100";
    assert p[1..] == "=80" && r[1..] == "=100";
    assert p[2] != r[2];
    ReplaceAllRemovesPattern(WidthRewrite(base), p, r);
  }

  /** The rewrite yields the empty string exactly for the empty string. */
  lemma QualityRewriteEmptyIff(base: string)
    ensures QualityRewrite(base) == "" <==> base == ""
  {
  }

  /**
   * The rewrite is not idempotent: `w=2000` still contains `w=200`, so a URL that has
   * already been rewritten grows again on a second pass.
   */
  lemma QualityRewriteNotIdempotent()
    ensures QualityRewrite("w=200") == "w=2000"
    ensures QualityRewrite(QualityRewrite("w=200")) == "w=20000"
  {
    assert "w=200" <= "w=200";
    assert ReplaceAll("w=200", "w=200", "w=2000") == "w=2000";
    assert "w=200" <= "w=2000";
    assert ReplaceAll("0", "w=200", "w=2000") == "0";
    assert ReplaceAll("w=2000", "w=200", "w=2000") == "w=20000";
    ReplaceAllNoMatch("w=2000", "q=80", "q=100") by {
      AbsentFirstChar("w=2000", "q=80");
    }
    ReplaceAllNoMatch("w=20000", "q=80", "q=100") by {
      AbsentFirstChar("w=20000", "q=80");
    }
  }

  /** The placeholder carries no `q=80` either. */
  lemma DefaultImageHasNoLowQuality()
    ensures !Contains(DefaultImage(), "q=80")
  {
    var host, path := "https://www.pokemonmillennium.net", "/wp-content/uploads/2015/11/missingno.png";
    assert 'q' !in host && 'q' !in path;
    assert DefaultImage() == host + path;
    AbsentFirstChar(host + path, "q=80");
  }

  /**
   * `getBirdImage`: every failure of the search, and a search without hits, yields the
   * placeholder; otherwise the first hit's candidate, rewritten.
   */
  function GetBirdImage(birdName: string, search: string -> Outcome<ImageResponse>): (url: string)
    ensures !search(birdName).Ok? ==> url == DefaultImage()
    ensures search(birdName).Ok? && |search(birdName).value.results| == 0 ==> url == DefaultImage()
    ensures url == "" <==>
      && search(birdName).Ok?
      && |search(birdName).value.results| > 0
      && search(birdName).value.results[0].urls.full == ""
      && search(birdName).value.results[0].urls.regular == ""
    ensures !Contains(url, "q=80")
  {
    DefaultImageHasNoLowQuality();
    match search(birdName)
    case Ok(response) =>
      if |response.results| == 0 then DefaultImage()
      else
        var base := BaseImage(response.results[0].urls);
        QualityRewriteEmptyIff(base);
        QualityRewriteRemovesLowQuality(base);
        QualityRewrite(base)
    case _ => DefaultImage()
  }

  /**
   * A search that succeeds with hits yields the first hit's candidate rewritten, never
   * shorter than it, and exactly it when it holds neither `w=200` nor `q=80`.
   */
  lemma GetBirdImageFromFirstHit(birdName: string, search: string -> Outcome<ImageResponse>)
    requires search(birdName).Ok? && |search(birdName).value.results| > 0
    ensures var base := BaseImage(search(birdName).value.results[0].urls);
      && GetBirdImage(birdName, search) == QualityRewrite(base)
      && |GetBirdImage(birdName, search)| >= |base|
      && (!Contains(base, "w=200") && !Contains(base, "q=80") ==> GetBirdImage(birdName, search) == base)
  {
    var base := BaseImage(search(birdName).value.results[0].urls);
    QualityRewriteLength(base);
    QualityRewriteUnchangedIff(base);
  }

  /** Only the first hit is consulted: responses that agree on it give the same URL. */
  lemma GetBirdImageUsesFirstHitOnly(
    birdName: string, search1: string -> Outcome<ImageResponse>, search2: string -> Outcome<ImageResponse>)
    requires search1(birdName).Ok? && search2(birdName).Ok?
    requires |search1(birdName).value.results| > 0 && |search2(birdName).value.results| > 0
    requires search1(birdName).value.results[0] == search2(birdName).value.results[0]
    ensures GetBirdImage(birdName, search1) == GetBirdImage(birdName, search2)
  {
  }

  /**
   * The `bird` handler's choice of what to encode: the placeholder when the `birdName` query
   * parameter is empty, the resolved image otherwise.
   */
  function HandleBird(birdName: string, search: string -> Outcome<ImageResponse>): (body: string)
    ensures birdName == "" ==> body == DefaultImage()
    ensures birdName != "" ==> body == GetBirdImage(birdName, search)
    ensures !Contains(body, "q=80")
  {
    DefaultImageHasNoLowQuality();
    if birdName == "" then DefaultImage() else GetBirdImage(birdName, search)
  }

  /** With an empty name the search is never consulted. */
  lemma HandleBirdEmptyNameSkipsSearch(
    search1: string -> Outcome<ImageResponse>, search2: string -> Outcome<ImageResponse>)
    ensures HandleBird("", search1) == HandleBird("", search2)
  {
  }
}
