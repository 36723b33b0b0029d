/**
 * The factoid service (bird/main.go): it fetches one bird fact by a random id, asks the image
 * resolver for that bird's picture, and answers the fact with its image replaced. Any failure
 * on the way is answered with the diagnostic "bird in disguise" record instead.
 *
 * The two upstream services are parameters: `facts` is, for each id, the outcome of fetching,
 * reading and decoding that fact; `images` is, for each bird name, the outcome of fetching,
 * reading and decoding the image resolver's answer.
 */
module BirdFactoid {
  import opened GoStrings
  import opened Upstream
  import BirdImage

  /** The fact record, as decoded and as answered. */
  datatype Bird = Bird(name: string, description: string, image: string)

  const DisguiseName := "Bird in disguise"
  const DisguisePrefix := "This bird is in disguise because: "

  /** This service's own copy of the placeholder image: the literal of bird/main.go:22, in two parts. */
  const DisguiseImage := "https://www.pokemonmillennium.net" + "/wp-content/uploads/2015/11/missingno.png"

  /** A diagnostic record: the fixed name and image, and a description that starts with the fixed prefix. */
  predicate IsDisguise(b: Bird) {
    b.name == DisguiseName && b.image == DisguiseImage && DisguisePrefix <= b.description
  }

  /** The error text a diagnostic record carries. */
  function DisguiseReason(b: Bird): Option<string> {
    if IsDisguise(b) then Some(b.description[|DisguisePrefix|..]) else None
  }

  /**
   * `defaultBird(err)`: all three fields are set together, and the error text can be read back
   * from the record.
   */
  function DefaultBird(err: string): (b: Bird)
    ensures IsDisguise(b)
    ensures DisguiseReason(b) == Some(err)
    ensures |b.description| == |DisguisePrefix| + |err|
  {
    Bird(DisguiseName, DisguisePrefix + err, DisguiseImage)
  }

  /** Every diagnostic record is `defaultBird` of the error text it carries. */
  lemma DefaultBirdOfReason(b: Bird)
    requires IsDisguise(b)
    ensures DefaultBird(DisguiseReason(b).value) == b
  {
  }

  /** Different errors give different diagnostic records. */
  lemma DefaultBirdInjective(e1: string, e2: string)
    requires DefaultBird(e1) == DefaultBird(e2)
    ensures e1 == e2
  {
  }

  /** The diagnostic image is the image resolver's placeholder. */
  lemma DisguiseImageIsDefaultImage(err: string)
    ensures DefaultBird(err).image == BirdImage.DefaultImage()
  {
  }

  /**
   * `getBirdImage(name)`: `("", err)` for a failed get, read or decode of the resolver's
   * answer, `(url, nil)` with the decoded string otherwise.
   */
  function GetBirdImage(birdName: string, images: string -> Outcome<string>): (reply: (string, Option<string>))
    ensures reply.1.Some? <==> !images(birdName).Ok?
    ensures reply.1.Some? ==> reply.0 == "" && reply.1.value == images(birdName).msg
    ensures reply.1.None? ==> reply.0 == images(birdName).value
  {
    match images(birdName)
    case Ok(url) => (url, None)
    case _ => ("", Some(images(birdName).msg))
  }

  /**
   * `getBirdFactoid`, for the id `rand.Intn(50)` drew: a failed fact fetch yields `defaultBird`
   * of that error; a failed image lookup yields `defaultBird` of the lookup's error; otherwise
   * the fact keeps its name and description and gets the looked-up image.
   */
  function GetBirdFactoid(id: int, facts: int -> Outcome<Bird>, images: string -> Outcome<string>): (b: Bird)
    requires 0 <= id < 50
    ensures !facts(id).Ok? ==> b == DefaultBird(facts(id).msg)
    ensures facts(id).Ok? && !images(facts(id).value.name).Ok?
        ==> b == DefaultBird(images(facts(id).value.name).msg)
    ensures facts(id).Ok? && images(facts(id).value.name).Ok? ==>
      && b.name == facts(id).value.name
      && b.description == facts(id).value.description
      && b.image == images(facts(id).value.name).value
  {
    match facts(id)
    case Ok(bird) =>
      var (birdImage, err) := GetBirdImage(bird.name, images);
      if err.Some? then DefaultBird(err.value)
      else bird.(image := birdImage)
    case _ => DefaultBird(facts(id).msg)
  }

  /**
   * The answer is never a mix: it is a diagnostic record as a whole, or the decoded fact as a
   * whole with only its image replaced.
   */
  lemma FactoidIsDisguiseOrFact(id: int, facts: int -> Outcome<Bird>, images: string -> Outcome<string>)
    requires 0 <= id < 50
    ensures var b := GetBirdFactoid(id, facts, images);
      || (exists e :: b == DefaultBird(e))
      || (facts(id).Ok? && b == facts(id).value.(image := b.image))
  {
    var b := GetBirdFactoid(id, facts, images);
    if !facts(id).Ok? {
      assert b == DefaultBird(facts(id).msg);
    } else if !images(facts(id).value.name).Ok? {
      assert b == DefaultBird(images(facts(id).value.name).msg);
    }
  }

  /** When the fact fetch fails, the image service is never consulted. */
  lemma FactFailureSkipsImageLookup(
    id: int, facts: int -> Outcome<Bird>, images1: string -> Outcome<string>, images2: string -> Outcome<string>)
    requires 0 <= id < 50 && !facts(id).Ok?
    ensures GetBirdFactoid(id, facts, images1) == GetBirdFactoid(id, facts, images2)
  {
  }

  /** The image the decoded fact carried never reaches the answer. */
  lemma FactImageIsOverwritten(
    id: int, facts1: int -> Outcome<Bird>, facts2: int -> Outcome<Bird>, images: string -> Outcome<string>)
    requires 0 <= id < 50 && facts1(id).Ok? && facts2(id).Ok?
    requires facts1(id).value.(image := "") == facts2(id).value.(image := "")
    ensures GetBirdFactoid(id, facts1, images) == GetBirdFactoid(id, facts2, images)
  {
  }

  /**
   * Composed with the image resolver: when a successful lookup delivers the resolver's answer
   * for the fact's name intact, the answer's image has no `q=80`; a failed lookup gives the
   * diagnostic image, which has none either.
   */
  lemma FactoidImageHasNoLowQuality(
    id: int, facts: int -> Outcome<Bird>, search: string -> Outcome<BirdImage.ImageResponse>,
    images: string -> Outcome<string>)
    requires 0 <= id < 50
    requires facts(id).Ok? && images(facts(id).value.name).Ok? ==>
      images(facts(id).value.name).value == BirdImage.HandleBird(facts(id).value.name, search)
    ensures !Contains(GetBirdFactoid(id, facts, images).image, "q=80")
  {
    BirdImage.DefaultImageHasNoLowQuality();
    if facts(id).Ok? {
      var name := facts(id).value.name;
      assert !Contains(BirdImage.HandleBird(name, search), "q=80");
    }
  }

  /**
   * The answer's image can be empty: a resolver hit with empty `Full` and `Regular` URLs
   * resolves to "" and is passed on as it is.
   */
  lemma FactoidImageMayBeEmpty()
    ensures var facts := (id: int) => Ok(Bird("Robin", "Sings", ""));
      var hit := BirdImage.Links(BirdImage.Urls("t", "s", "", ""));
      var search := (name: string) => Ok(BirdImage.ImageResponse([hit]));
      var images := (name: string) => Ok(BirdImage.HandleBird(name, search));
      GetBirdFactoid(7, facts, images).image == ""
  {
  }
}
