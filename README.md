# EcoPlace product tile: a verified model

This project models the logic of the EcoPlace product tile (`ProductCard`). The tile shows one
search result. Its model has three parts:

- **The eco score** (`eco_score.dfy`, module `EcoScore`). A fixed table holds 18 lower-case
  keyword phrases in four groups: recycling, practices, impact and material. For every phrase
  found as a substring of the lower-cased title or the lower-cased snippet, the scorer adds 20.
  It then caps the sum at 100.
  - `Score` is the specification function.
  - `CalculateEcoScore` is the component's nested counting loop, proved equal to `Score`.
  - Lemmas prove what the score means: 20 per distinct phrase found, capped; 0 for empty texts;
    100 from five phrases up; case-insensitive; monotone under added text. Overlapping phrases
    ("organic cotton" and "cotton") both count.
- **The tiers** (`tiers.dfy`, module `EcoTiers`). The score maps to a badge colour (five bands),
  an explanation block (three bands) and a closing sentence (two bands). Their bands differ: 50
  is "positive" but yellow. Scores are always multiples of 20, so on every score the scorer can
  produce, the positive block goes exactly with the two greens.
- **The card** (`product_card.dfy`, module `ProductCard`). The class `Card` holds the view flags
  `loading`, `isWishlisted` and `showDetails`, the price, and a log of the remote writes the
  handlers issue:
  - a points increment, counted in half points;
  - a wishlist append, together with whether the store accepted it.

  The current user, the outcome of the price lookup, the two random draws behind the stand-in
  price and the success of a wishlist write are all parameters of the handlers. The card
  invariant `Valid` states four things:
  - the score is the one for the card's title and snippet;
  - the heart is filled exactly when some wishlist write has succeeded;
  - every points write comes from a card scoring at least 20 and awards a single half point;
  - every wishlist write carries this card's title, link, image and score.

Lower-casing is ASCII (`A`–`Z` to `a`–`z`), and every keyword is ASCII.

Three points of the code's behaviour are easy to misread:
- "cotton" is counted again inside "organic cotton". The title "Organic Cotton Tote, Recyclable"
  with the snippet "eco-friendly manufacturing" therefore matches four phrases and scores 80,
  not 60 (`MixedCaseExampleScores80`).
- The price lookup has no stale-result guard. Whenever the request settles, it sets the price
  and clears `loading`.
- A price object without a currency is stored without one: no "USD" default is applied to an
  answer from the pricing service.

## Model

| member | source | states |
|---|---|---|
| EcoScore.Keywords | src/components/ProductCard.jsx:38-65 | The phrase table, group by group in source order: three phrases each for recycling, practices and impact, and nine materials. |
| EcoScore.AllKeywordsShape | src/components/ProductCard.jsx:38-65 | `AllKeywords`, the table flattened in the order the scorer visits it, has 18 phrases, and none of them is empty. |
| EcoScore.Lower | src/components/ProductCard.jsx:73 | `toLowerCase` on ASCII: the result has the same length and no upper-case letter, and every character that is not an upper-case letter is kept. |
| EcoScore.Includes | src/components/ProductCard.jsx:73 | `includes`: the phrase occurs at some position of the text. A match implies the phrase is no longer than the text, and the empty phrase always matches. |
| EcoScore.Hit | src/components/ProductCard.jsx:72-74 | The test for one phrase: it occurs in the lower-cased title or in the lower-cased snippet. A hit needs a text at least as long as the phrase. |
| EcoScore.Matched | src/components/ProductCard.jsx:70-78 | The phrases counted are exactly the phrases of the table that occur in the lower-cased title or snippet; there are never more than table entries. |
| EcoScore.Score | src/components/ProductCard.jsx:68-80 | The score is between 0 and 100 and is a multiple of 20. |
| EcoScore.CalculateEcoScore | src/components/ProductCard.jsx:68-80 | The two nested loops over the groups and their phrases, adding 20 per phrase found in either lower-cased text and capping at 100, return exactly `Score`. |
| EcoScore.AllKeywordsDistinct | src/components/ProductCard.jsx:38-65 | No phrase appears twice in the table, so each phrase found adds 20 once. |
| EcoScore.MatchedCountsFoundPhrases | src/components/ProductCard.jsx:70-78 | For a table without repeats, the number of hits counted equals the number of distinct phrases found. |
| EcoScore.ScoreCountsFoundPhrases | src/components/ProductCard.jsx:68-80 | The score is min(20 × number of table phrases found in the lower-cased title or snippet, 100). |
| EcoScore.EmptyTextScoresZero | src/components/ProductCard.jsx:38-80 | An empty title and an empty snippet score 0, since no phrase is empty. |
| EcoScore.FivePhrasesSaturate | src/components/ProductCard.jsx:75-79 | Five or more distinct table phrases found give exactly 100. |
| EcoScore.CaseInsensitive | src/components/ProductCard.jsx:73 | Two titles and snippets that differ only in letter case score the same. |
| EcoScore.UpperCaseKeepsScore | src/components/ProductCard.jsx:73 | Upper-casing the title and snippet does not change the score. |
| EcoScore.Monotone | src/components/ProductCard.jsx:72-75 | Adding text before or after the title or the snippet never lowers the score. |
| EcoScore.OrganicCottonIncludesCotton | src/components/ProductCard.jsx:56-58 | Any text containing "organic cotton" also contains "cotton". |
| EcoScore.OrganicCottonCountsTwice | src/components/ProductCard.jsx:56-58 | A product whose title or snippet contains "organic cotton" in any letter case scores at least 40. |
| EcoScore.OrganicCottonAloneScores40 | src/components/ProductCard.jsx:56-58 | The title "organic cotton" with an empty snippet scores exactly 40. |
| EcoScore.ScoreFromHits | src/components/ProductCard.jsx:68-80 | If a set of table phrases is exactly the set of phrases that hit, the score is min(20 × its size, 100). |
| EcoScore.MixedCaseExampleScores80 | src/components/ProductCard.jsx:38-80 | The title "Organic Cotton Tote, Recyclable" with the snippet "eco-friendly manufacturing" scores 80: "organic cotton", "cotton", "recyclable" and "eco-friendly manufacturing" match, and nothing else does. |
| EcoTiers.EcoScoreColor | src/components/ProductCard.jsx:84-90 | The colour is green-500 exactly from 80 up, green-400 exactly on [60,80), yellow-500 on [40,60), yellow-400 on [20,40) and red-500 below 20. |
| EcoTiers.ColorMonotone | src/components/ProductCard.jsx:84-90 | A higher score never gets a worse colour. |
| EcoTiers.TopTierBoundary | src/components/ProductCard.jsx:85-86 | Score 80 is green-500 and 79 is green-400. |
| EcoTiers.ColorClassInjective | src/components/ProductCard.jsx:85-89 | The five colours use five different CSS classes. |
| EcoTiers.ColorClass | src/components/ProductCard.jsx:85-89 | The definition maps the five colours to the classes "bg-green-500", "bg-green-400", "bg-yellow-500", "bg-yellow-400" and "bg-red-500". |
| EcoTiers.ExplanationLines | src/components/ProductCard.jsx:96-115 | The definition gives the four lines of each block with their marks (check, warning, info, cross). |
| EcoTiers.ExplanationLinesInjective | src/components/ProductCard.jsx:96-115 | The three blocks are different texts. |
| EcoTiers.ClosingText | src/components/ProductCard.jsx:128-129 | The definition gives the two closing sentences. |
| EcoTiers.ClosingTextInjective | src/components/ProductCard.jsx:128-129 | The two closing sentences are different texts. |
| EcoTiers.ExplanationTier | src/components/ProductCard.jsx:95-116 | The positive block is chosen exactly from 50 up, the moderate block exactly on [20,50), and the limited block below 20. |
| EcoTiers.ClosingSentence | src/components/ProductCard.jsx:127-129 | The "strong commitment" sentence is chosen exactly from 80 up. |
| EcoTiers.ScoresAreReachable | src/components/ProductCard.jsx:68-80 | Every product's score is reachable: it is in [0,100] and a multiple of 20. |
| EcoTiers.ReachableScores | src/components/ProductCard.jsx:68-80 | The reachable scores are exactly 0, 20, 40, 60, 80 and 100. |
| EcoTiers.ExplanationMatchesColor | src/components/ProductCard.jsx:84-116 | On reachable scores: positive block iff green-500 or green-400; moderate iff a yellow; limited iff red-500. |
| EcoTiers.PositiveYellowAtFifty | src/components/ProductCard.jsx:87-95 | Score 50 shows the positive block under a yellow badge, so the agreement needs reachability. |
| EcoTiers.ClosingMatchesTopColor | src/components/ProductCard.jsx:84-129 | For every score, the strong closing sentence appears exactly when the badge is green-500. |
| EcoTiers.CardExplanationMatchesColor | src/components/ProductCard.jsx:82-116 | On every product's score, the positive explanation appears exactly when the badge is green. |
| ProductCard.FallbackPrice | src/components/ProductCard.jsx:22-26 | For any two random draws in [0,1), the stand-in price after a failed lookup is in USD. Its current amount is a whole number in [20,29] and its savings a whole number in [0,19]. |
| ProductCard.PointsAward | src/components/ProductCard.jsx:135-145 | A visit issues a points write exactly when the score is at least 20 and a user is signed in, and that write is always one half point for that user. |
| ProductCard.Card.constructor | src/components/ProductCard.jsx:6-10 | A new tile has the score of its title and snippet, no price, `loading` set, heart empty, details closed, no writes, and satisfies `Valid`. |
| ProductCard.Card.PriceSettled | src/components/ProductCard.jsx:13-33 | When the lookup settles, the price becomes the answer's price, or the stand-in after a failure. `loading` becomes false, and nothing else changes. |
| ProductCard.Card.ToggleDetails | src/components/ProductCard.jsx:224 | The details flag flips and nothing else changes. |
| ProductCard.Card.AwardPoints | src/components/ProductCard.jsx:135-145 | The log grows by exactly the write `PointsAward` prescribes, and nothing else changes. `Valid` is kept. |
| ProductCard.Card.Entry | src/components/ProductCard.jsx:155-162 | The wishlist entry carries the card's title, link, image and score. Its amount and currency are those of the price object, and both are missing when there is no price object. |
| ProductCard.Card.AddToWishlist | src/components/ProductCard.jsx:148-169 | Without a user, the log and the heart are unchanged. With a user, one write of the card's entry is logged, and the heart fills only if that write succeeds. A filled heart never empties, and `Valid` is kept. |

## Left out

- The price request itself: the HTTP call, JSON decoding and asynchrony. The outcome is a
  parameter of `PriceSettled`: an answer carrying a price or none, or a failure.
- `Math.random`: the two random draws of the stand-in price are parameters in [0,1).
- PriceLookup: an answered price is modelled as a record of three optional fields, with amounts
  as exact decimals. A `price` value of another shape (a string, a number, an array) is not
  captured, and neither is floating-point rounding of the amounts.
- The remote user store: `doc`, `updateDoc`, `increment`, `arrayUnion`. Each write is an entry
  in the card's effect log. Whether a wishlist write succeeds is a parameter. The store's own
  behaviour, such as `arrayUnion` de-duplication or the failure of a points write, is not part
  of this model.
- The points increment of 0.5 is one half-point unit (`HalfPointsPerAward`). Floating point is
  not modelled.
- Rendering: JSX, CSS classes other than the badge colour, the image fallback through
  `pagemap` and `onError`, `stopPropagation`, and `console.error` logging. The image is a
  parameter of the constructor.
- Full Unicode `toLowerCase`: lower-casing is ASCII only.
- A missing `title` or `snippet` (an exception in the component). Both are modelled as strings.
- Concurrent or interleaved handlers. Each handler runs to completion, and the model does not
  capture interleavings of the asynchronous writes.
