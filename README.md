# Bird factoid services, modelled in Dafny

The system answers a "bird fact card": a bird's name, a description, and an image URL. Two small
Go services hold its decision logic, and this project models both of them:

- **The image resolver** (`birdImage/main.go`, module `BirdImage`). It takes a bird name and runs
  an image search. Any failed step of that search gives the fixed placeholder image. So does a
  search with no hits. Otherwise it takes the first hit's `Full` URL, or the `Regular` URL when
  `Full` is empty. It then rewrites `w=200` to `w=2000` and `q=80` to `q=100` in that URL.
  GoStrings models the `strings.ReplaceAll` the rewrite calls: leftmost matches, never
  overlapping, and a non-empty pattern. The Go code does not call `strings.Count`; GoStrings
  defines `Count` as the measure in which the length and no-op contracts are written.
- **The factoid aggregator** (`bird/main.go`, module `BirdFactoid`). It fetches one bird fact by
  an id in `[0, 50)`. It asks the image resolver for that bird's image and answers the fact with
  its image replaced. A failure at any step is answered with the diagnostic record
  `defaultBird(err)` instead: the name "Bird in disguise", a description with the error text, and
  the placeholder image.

Each upstream HTTP call is a value of `Upstream.Outcome<T>`. Its cases are `TransportErr` for a
failed `http.Get`, `ReadErr` for a failed `io.ReadAll`, `DecodeErr` for a failed `json.Unmarshal`,
and `Ok(value)`. A service is passed in as a function from its key to that outcome. For bird
facts the key is the id. For images and image searches it is the bird name. "The lookup is never
attempted" is then stated as "the result does not depend on that function".

Two consequences of the code are worth stating:

- The rewrite is not idempotent: `w=2000` contains `w=200`, so a second pass gives `w=20000`
  (`QualityRewriteNotIdempotent`).
- A hit whose `Full` and `Regular` are both empty gives `""`, not the placeholder (`GetBirdImage`'s
  third ensures). That `""` reaches the fact card (`FactoidImageMayBeEmpty`).

Facts come from a remote API keyed by `rand.Intn(50)`.

## Model

| member | source | states |
|---|---|---|
| GoStrings.ReplaceAll | birdImage/main.go:72-73 | no contract of its own; specified by `GoStrings.ReplaceAllNoMatch`, `GoStrings.ReplaceAllLength`, `GoStrings.ReplaceAllUnchangedIff` and `GoStrings.ReplaceAllRemovesPattern` |
| GoStrings.CountZeroIff | birdImage/main.go:72-73 | the number of non-overlapping matches is zero exactly when the pattern does not occur |
| GoStrings.ReplaceAllNoMatch | birdImage/main.go:72-73 | replacing a pattern that does not occur returns the string unchanged |
| GoStrings.ReplaceAllLength | birdImage/main.go:72-73 | the output length is the input length plus, per rewritten match, the replacement's length minus the pattern's |
| GoStrings.ReplaceAllUnchangedIff | birdImage/main.go:72-73 | when the replacement's length differs from the pattern's, the output equals the input exactly when the pattern is absent |
| GoStrings.ReplaceAllRemovesPattern | birdImage/main.go:73 | for a pattern that cannot overlap itself and that no replacement can rebuild, across a boundary or inside it, no occurrence survives |
| BirdImage.DefaultImage | birdImage/main.go:32-34 | no contract of its own; specified by `BirdImage.DefaultImageHasNoLowQuality` and `BirdFactoid.DisguiseImageIsDefaultImage` |
| BirdImage.BaseImage | birdImage/main.go:64-68 | no contract of its own; specified by `BirdImage.GetBirdImage` (its empty-result ensures) and `BirdImage.GetBirdImageFromFirstHit` |
| BirdImage.WidthRewrite | birdImage/main.go:72 | no contract of its own; specified by `BirdImage.QualityRewriteLength`, `BirdImage.QualityRewriteUnchangedIff` and `BirdImage.QualityRewriteNotIdempotent` |
| BirdImage.QualityRewrite | birdImage/main.go:72-73 | no contract of its own; specified by `BirdImage.QualityRewriteLength`, `BirdImage.QualityRewriteUnchangedIff`, `BirdImage.QualityRewriteRemovesLowQuality`, `BirdImage.QualityRewriteEmptyIff` and `BirdImage.QualityRewriteNotIdempotent` |
| BirdImage.QualityRewriteLength | birdImage/main.go:72-73 | the rewritten URL is longer by the count of `w=200` in the input plus the count of `q=80` in the intermediate string, so never shorter |
| BirdImage.QualityRewriteUnchangedIff | birdImage/main.go:72-73 | the rewrite is a no-op exactly when the URL contains neither `w=200` nor `q=80` |
| BirdImage.QualityRewriteRemovesLowQuality | birdImage/main.go:73 | after the rewrite no `q=80` remains, for every input |
| BirdImage.QualityRewriteEmptyIff | birdImage/main.go:72-75 | the rewrite gives the empty string exactly for the empty string |
| BirdImage.QualityRewriteNotIdempotent | birdImage/main.go:72-73 | `w=200` becomes `w=2000`, and a second pass makes it `w=20000`, so the rewrite is not idempotent |
| BirdImage.DefaultImageHasNoLowQuality | birdImage/main.go:32-34 | the placeholder URL contains no `q=80` |
| BirdImage.GetBirdImage | birdImage/main.go:36-76 | a transport, read or decode failure, or zero hits, gives exactly the placeholder; the result is empty exactly when the first hit has empty `Full` and `Regular`; the result never contains `q=80` |
| BirdImage.GetBirdImageFromFirstHit | birdImage/main.go:64-75 | with hits, the result is the rewrite of `Full`, or of `Regular` when `Full` is empty; it is never shorter than that candidate and equals it when the candidate holds neither pattern |
| BirdImage.GetBirdImageUsesFirstHitOnly | birdImage/main.go:65-67 | two responses that agree on `Results[0]` give the same URL, whatever follows it |
| BirdImage.HandleBird | birdImage/main.go:78-86 | an empty `birdName` gives the placeholder, any other name gives `getBirdImage(birdName)`; the answer never contains `q=80` |
| BirdImage.HandleBirdEmptyNameSkipsSearch | birdImage/main.go:80-82 | with an empty name the answer does not depend on the image search at all |
| BirdFactoid.DefaultBird | bird/main.go:18-24 | the record has the fixed name and the placeholder image; its description is the fixed prefix followed by the error text, and reading that text back gives the error |
| BirdFactoid.DefaultBirdOfReason | bird/main.go:18-24 | every record with the diagnostic shape is `defaultBird` of the error text it carries |
| BirdFactoid.DefaultBirdInjective | bird/main.go:21 | different error texts give different diagnostic records |
| BirdFactoid.DisguiseImageIsDefaultImage | bird/main.go:22 | the diagnostic record's image is the same literal as the image resolver's placeholder |
| BirdFactoid.GetBirdImage | bird/main.go:26-45 | the error is non-nil exactly when the get, read or decode failed; then the URL is `""` and the error is that step's; on success the URL is the decoded string and the error is nil |
| BirdFactoid.GetBirdFactoid | bird/main.go:47-75 | for an id in `[0, 50)`: a fact failure gives `defaultBird` of that error; an image failure gives `defaultBird` of the image error, dropping the fact; on success the name and description come from the fact and the image from the lookup |
| BirdFactoid.FactoidIsDisguiseOrFact | bird/main.go:47-75 | the answer is either exactly some `defaultBird(e)` or the decoded fact with only its image changed, never a mix |
| BirdFactoid.FactFailureSkipsImageLookup | bird/main.go:48-65 | after a failed fact fetch, read or decode, the answer does not depend on the image service |
| BirdFactoid.FactImageIsOverwritten | bird/main.go:61-74 | facts that differ only in their image give the same answer |
| BirdFactoid.FactoidImageHasNoLowQuality | bird/main.go:67-74 | whenever a successful image lookup delivers the resolver's answer intact, and for every failed lookup, the fact card's image never contains `q=80` |
| BirdFactoid.FactoidImageMayBeEmpty | bird/main.go:67-74 | a hit with empty `Full` and `Regular` gives a fact card whose image is `""` |

## Left out

- The frontend service (`frontend/main.go`) is not part of this model. It serves a static page and forwards bytes, with no decision logic.
- Network I/O is not modelled: `http.Get`, `io.ReadAll`, `res.Body.Close`, `ListenAndServe` and the response writers. Each call chain is an `Outcome` value from a function parameter.
- JSON is not modelled. Decoding is an opaque outcome, and the handlers return the value they would encode.
- The encode-failure path that answers HTTP 500 (bird/main.go:81-83) is left out, because encoding is not modelled.
- Query construction is folded into the service functions: `fmt.Sprintf`, `url.QueryEscape` and the provider's client id.
- `rand.Intn(50)` is entropy. The id is a parameter whose precondition is the range `rand.Intn(50)` produces.
- `fmt.Printf` logging and per-request concurrency are left out. Neither changes a result.
- GoStrings.ReplaceAll: takes a non-empty pattern. Go's empty-pattern case is not modelled, because both call sites pass non-empty literals.
- Go strings are byte strings and the model uses characters. Both patterns are ASCII, and an ASCII byte never occurs inside a multi-byte UTF-8 sequence, so the matches are the same.
- BirdFactoid.DefaultBird: the error is kept as its text only. The model does not cover how `%s` formats a Go `error`.
