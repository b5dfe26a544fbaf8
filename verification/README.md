# guten-analyze core, modelled in Dafny

guten-analyze lets a reader pick a Project Gutenberg book. It fetches the
book's text, asks a language model to extract the characters and their
interactions, and shows the result as lists and as a relationship graph. This
project models the deterministic core of that application as pure Dafny
functions and proves properties of them:

- **Relationship graph** (`GraphUtils`, `CharacterGraph`):
  - the edge colour chosen from an interaction's nature;
  - the importance badge;
  - node and edge construction in `graph/utils.ts`;
  - the older inline copy of the same logic in `CharacterGraph.tsx`, including the character map and the force-simulation links.
- **Character details panel** (`NodeDetails`): the interactions involving the selected character, the other party of each, and the badges.
- **Badge helpers** (`InteractionBadges`, `CharacterCards`): the relationship and significance badges of the interaction list, and the card and badge styles of the character list.
- **Book carousel**:
  - `CarouselUtils` covers the fixed title table, the Gutenberg cover URL and the book details.
  - `Carousel` covers the wrap-around next/previous buttons, the autoplay tick, the placement of every book around the active one (offset, distance, position, z-index, rotation) and the click handler.
  - `LegacyCarousel` covers the older single-file carousel, whose autoplay switches off for good once a book is selected.
- **Progress indicator**:
  - `Progress` covers the five analysis statuses, the three step markers (highlight, glyph, ping), the bar width and the heading.
  - `LegacyProgress` covers the older single-file indicator, proved to give the same heading, bar width and step markers for every status (the bar track's colour classes differ and are not modelled).
- **Analysis endpoint** (`AnalyzeBookRoute`), `POST /api/analyze/book`: body validation, truncation to 20,000 characters, the prompt, the single completion request, and the mapping of each failure to a response.

Shared pieces:

- `Domain` holds the character and interaction records and the badge/card class tokens.
- `Seqs` holds an order-preserving `Filter` with an index witness `Kept`, which characterises "exactly these elements, in their original order".
- `Decimal` renders the `edge-<n>` ids and proves that rendering injective.
- `Ascii` holds case mapping.
- `Maybe` holds `Option`/`Result`.

Modelling choices:

- **Class strings become tokens.** Each distinct Tailwind class string is one constructor of `BadgeClass` or `CardClass`. The comment on each constructor says which string it stands for. Colours and texts that other code compares or displays are kept as the literal strings of the source.
- **Lower-casing is ASCII only.** `String.prototype.toLowerCase` also maps non-ASCII letters. Every result here depends only on whether the lower-cased label equals one of six all-ASCII keywords ("allies", "friends", "enemies", "rivals", "family", "romantic"), and no non-ASCII character lower-cases to an ASCII letter except U+0130 and U+212A.
  - U+0130 (İ) lower-cases to "i" plus a combining dot, so it cannot produce one of the keywords.
  - U+212A (the Kelvin sign) lower-cases to "k". No keyword contains "k".
  - So ASCII-only lower-casing gives the same colours and badges.
  - Upper-casing is different: `toUpperCase` maps some non-ASCII characters to ASCII letters (ß to "SS", ſ to "S", ı to "I", ligatures such as ﬁ to "FI"). So the case-insensitivity lemmas hold for ASCII case variants only.
- **Significance is a `real`.** An interaction's significance is a JavaScript number, so thresholds such as `>= 8` and the width `significance / 2` are taken over the reals.
- **The carousel's half-way test is exact.** JavaScript's `offset > books.length / 2` divides in real numbers, so it is written `2 * offset > n` over the integers.
- **JavaScript `%` truncates toward zero.** It is modelled as `Carousel.JsRem` and proved equal to Dafny's Euclidean `%` where the carousel uses it.
- **Oracles replace I/O.** The endpoint's reading of the request body, the call to the completion service and `JSON.parse` are parameters of `Handle`. Each either yields a value or fails with a message, the way a thrown error carries one.

## Model

| member | source | states |
|---|---|---|
| GraphUtils.EdgeColor | guten-analyze/src/components/analysis/tabs/graph/utils.ts:6-21 | The colour is green exactly for "allies"/"friends", red exactly for "enemies"/"rivals", blue exactly for "family", pink exactly for "romantic", and grey exactly for every other label, all compared after lower-casing. |
| GraphUtils.EdgeColorIgnoresCase | guten-analyze/src/components/analysis/tabs/graph/utils.ts:7 | Labels equal up to ASCII letter case get the same colour, and ASCII upper- or lower-casing a label never changes its colour. |
| GraphUtils.ImportanceBadgeClass | guten-analyze/src/components/analysis/tabs/graph/utils.ts:23-32 | The badge is green iff importance is exactly "main", blue iff exactly "secondary", grey for anything else (case-sensitive, "minor" included). |
| GraphUtils.CreateNodes | guten-analyze/src/components/analysis/tabs/graph/utils.ts:34-50 | One node per character, in order; node k has the character's name as id, type "character" and carries character k. |
| GraphUtils.EdgeIdInjective | guten-analyze/src/components/analysis/tabs/graph/utils.ts:63 | Distinct numbers give distinct `edge-<n>` ids. |
| GraphUtils.StrokeWidth | guten-analyze/src/components/analysis/tabs/graph/utils.ts:70 | The width lies in [1, 5], equals significance/2 when that is in range, and is the point of [1, 5] closest to significance/2. |
| GraphUtils.CreateEdges | guten-analyze/src/components/analysis/tabs/graph/utils.ts:52-73 | The edges correspond one-to-one, in order, to the interactions whose endpoints are both keys of the map. Edge k is `edge-k`, joins the two named characters (both known), is labelled with the nature, is animated iff significance is at least 8, has the nature's colour and a width in [1, 5]. |
| GraphUtils.CreateEdgesAt | guten-analyze/src/components/analysis/tabs/graph/utils.ts:56-72 | Edge k is exactly the edge drawn for the k-th kept interaction, under the id `edge-k`. |
| GraphUtils.CreateEdgesIdsDistinct | guten-analyze/src/components/analysis/tabs/graph/utils.ts:62-63 | The edge ids are pairwise distinct. |
| CharacterGraph.EdgeColorAgrees | guten-analyze/src/components/analysis/tabs/graph/CharacterGraph.tsx:87-102 | The component's own colour switch gives the same colour as the utility on every label. |
| CharacterGraph.NamesAreKeys | guten-analyze/src/components/analysis/tabs/graph/CharacterGraph.tsx:132-135 | Every character's name is a key of the character map. |
| CharacterGraph.KeysAreNames | guten-analyze/src/components/analysis/tabs/graph/CharacterGraph.tsx:132-135 | Every key of the character map is some character's name. |
| CharacterGraph.LastNameWins | guten-analyze/src/components/analysis/tabs/graph/CharacterGraph.tsx:133-135 | When several characters share a name, the map holds the last of them. |
| CharacterGraph.InitialNodesMatchUtils | guten-analyze/src/components/analysis/tabs/graph/CharacterGraph.tsx:138-153 | The inline node loop builds exactly the nodes of `createNodes`. |
| CharacterGraph.InitialEdgesFollowKept | guten-analyze/src/components/analysis/tabs/graph/CharacterGraph.tsx:155-177 | Interactions with an unknown endpoint are skipped. The k-th edge is built from the k-th kept interaction, and its id is that interaction's position in the unfiltered list. |
| CharacterGraph.InlineEdgeAgrees | guten-analyze/src/components/analysis/tabs/graph/CharacterGraph.tsx:166-175 | The edge the inline loop pushes, styled with the component's own colour switch, equals the edge `graph/utils.ts` draws for the same interaction and id. |
| CharacterGraph.InitialEdgesVersusCreateEdges | guten-analyze/src/components/analysis/tabs/graph/CharacterGraph.tsx:158-167 | The inline edges equal those of `createEdges` except for their ids. The inline ids are still pairwise distinct. |
| CharacterGraph.SameEdgesIffNoGaps | guten-analyze/src/components/analysis/tabs/graph/CharacterGraph.tsx:158-167 | The two builders produce identical edges if and only if no skipped interaction comes before a kept one. |
| CharacterGraph.AllKnownSameEdges | guten-analyze/src/components/analysis/tabs/graph/CharacterGraph.tsx:158-177 | When every endpoint is known, the two builders produce identical edges. |
| CharacterGraph.SkippedInteractionShiftsId | guten-analyze/src/components/analysis/tabs/graph/CharacterGraph.tsx:167 | A concrete list where one skipped interaction precedes a kept one. The inline copy numbers the kept edge "edge-1"; `createEdges` numbers it "edge-0". |
| CharacterGraph.ForceLinks | guten-analyze/src/components/analysis/tabs/graph/CharacterGraph.tsx:183-192 | One link per known interaction, in order, with its endpoints and strength significance/10. |
| CharacterGraph.LinksFollowEdges | guten-analyze/src/components/analysis/tabs/graph/CharacterGraph.tsx:155-192 | The links pair up with the edges: same number, same order, same endpoints. |
| CharacterGraph.KnownNamesAreNodes | guten-analyze/src/components/analysis/tabs/graph/CharacterGraph.tsx:130-153 | Every key of the character map is the id of some initial node. |
| CharacterGraph.EdgesJoinNodes | guten-analyze/src/components/analysis/tabs/graph/CharacterGraph.tsx:130-192 | Every edge and every force link joins two nodes of the graph. |
| NodeDetails.CharacterInteractions | guten-analyze/src/components/analysis/tabs/graph/CharacterNodeDetails.tsx:17-21 | The result lists exactly the interactions with the character as either endpoint, all of them and only them, in their original order. |
| NodeDetails.OtherCharacter | guten-analyze/src/components/analysis/tabs/graph/CharacterNodeDetails.tsx:106-109 | The other party is one of the two endpoints. It equals the character iff the interaction is a self-pair. For an involved character, {character, other} is the interaction's pair of endpoints. |
| NodeDetails.ImportanceBadgesAgree | guten-analyze/src/components/analysis/tabs/graph/CharacterNodeDetails.tsx:24-33 | The panel's badge switch agrees with the graph utility's and with the character list's on every value. |
| NodeDetails.SignificanceBadgeAgrees | guten-analyze/src/components/analysis/tabs/graph/CharacterNodeDetails.tsx:119-125 | The panel's inline significance badge bands exactly like `getSignificanceBadgeClasses`. |
| NodeDetails.Rows | guten-analyze/src/components/analysis/tabs/graph/CharacterNodeDetails.tsx:99-138 | One row per involved interaction, in order. Each row names the other party, carries the significance badge, and shows the interaction's relationship and nature. |
| InteractionBadges.RelationshipBadgeClasses | guten-analyze/src/components/analysis/tabs/interactions/utils.ts:2-16 | The badge is green, red, blue, pink or neutral exactly for the same lower-cased label groups as the edge colours. |
| InteractionBadges.RelationshipBadgeIgnoresCase | guten-analyze/src/components/analysis/tabs/interactions/utils.ts:3 | Labels equal up to ASCII letter case share a badge. |
| InteractionBadges.BadgeAgreesWithEdgeColor | guten-analyze/src/components/analysis/tabs/interactions/utils.ts:2-16 | Two labels share a badge iff they share an edge colour, so the list and the graph classify labels alike. |
| InteractionBadges.SignificanceBadgeClasses | guten-analyze/src/components/analysis/tabs/interactions/utils.ts:19-27 | The badge is red iff significance is at least 8, yellow iff it is in [5, 8), blue iff it is below 5. |
| InteractionBadges.SignificanceMonotone | guten-analyze/src/components/analysis/tabs/interactions/utils.ts:19-27 | A higher significance never gets a lower badge. |
| CharacterCards.CardClasses | guten-analyze/src/components/analysis/tabs/characters/utils.ts:1-10 | The card is green iff importance is exactly "main", blue iff exactly "secondary", grey otherwise. |
| CharacterCards.ImportanceBadgeClasses | guten-analyze/src/components/analysis/tabs/characters/utils.ts:12-21 | The badge is green iff importance is exactly "main", blue iff exactly "secondary", grey otherwise. |
| CharacterCards.CardMatchesBadge | guten-analyze/src/components/analysis/tabs/characters/utils.ts:1-21 | Two importance values share a card style iff they share a badge style. |
| CarouselUtils.GetBookTitle | guten-analyze/src/components/carousel/utils.ts:1-13 | The title is never empty. A listed id gets its fixed title; any other id gets "Book #" followed by the id. |
| CarouselUtils.KnownTitles | guten-analyze/src/components/carousel/utils.ts:2-12 | Gives the eight fixed titles one by one, plus the fallback for an unlisted id. |
| CarouselUtils.GetBookCoverUrl | guten-analyze/src/components/carousel/utils.ts:15-17 | The URL has the Gutenberg cover shape, and the id can be read back out of it. |
| CarouselUtils.CoverUrlRoundTrip | guten-analyze/src/components/carousel/utils.ts:15-17 | Reading the id back from a cover URL gives the id. Only the URL built from that id reads back to it. |
| CarouselUtils.CoverUrlInjective | guten-analyze/src/components/carousel/utils.ts:15-17 | Distinct book ids get distinct cover URLs. |
| CarouselUtils.GenerateBookDetails | guten-analyze/src/components/carousel/utils.ts:19-25 | One entry per id, in order. Each entry carries its id, a cover URL that reads back to that id, and the id's title. |
| Carousel.JsRem | guten-analyze/src/components/carousel/index.tsx:68 | JavaScript's remainder: strictly between -n and n, congruent to the dividend, and with the dividend's sign. |
| Carousel.Next | guten-analyze/src/components/carousel/index.tsx:41-45 | From an index in range, the next index is in range and equals (current + 1) mod n. |
| Carousel.Prev | guten-analyze/src/components/carousel/index.tsx:47-51 | From an index in range, the previous index is in range and equals (current - 1) mod n. |
| Carousel.NextPrevInverse | guten-analyze/src/components/carousel/index.tsx:41-51 | Next undoes Prev and Prev undoes Next. |
| Carousel.AdvanceWraps | guten-analyze/src/components/carousel/index.tsx:27-45 | k presses (or autoplay ticks) move k places round the ring, and n presses come back to the start. |
| Carousel.OutOfRangeNeverReturns | guten-analyze/src/components/carousel/index.tsx:41-45 | From an index at or past the end of the list, k presses of next move it exactly k places further out, so it never returns to [0, n). |
| Carousel.Offset | guten-analyze/src/components/carousel/index.tsx:67-69 | The double-remainder offset lies in [0, n) and is the Euclidean residue of index − current. |
| Carousel.Place | guten-analyze/src/components/carousel/index.tsx:66-81 | A book is active iff its offset is 0. Its distance is the shorter way round the ring (at most n/2, 0 iff active). Its position is 0 when active, -1 when the backward way is strictly shorter, and 1 otherwise. Its z-index is n − distance, in (0, n]. Its rotation is 5 × position. |
| Carousel.ExactlyOneActive | guten-analyze/src/components/carousel/index.tsx:70-77 | Exactly one book in [0, n) is active, the one at current mod n. It alone has the top z-index n. |
| Carousel.Click | guten-analyze/src/components/carousel/index.tsx:94 | Clicking a book reports it iff it is the active one, and then reports its id. |
| Carousel.Step | guten-analyze/src/components/carousel/index.tsx:27-105 | Every event keeps the index in range. A book is reported iff the event clicks the active book. |
| Carousel.RunStaysInRange | guten-analyze/src/components/carousel/index.tsx:17-105 | Along any run of renderable events the index stays in [0, n), and every reported id is the id of one of the carousel's books. |
| LegacyCarousel.BookDetailsAgree | guten-analyze/src/components/BookCarousel.tsx:25-47 | The inline title table and cover URL produce exactly the details of `generateBookDetails`. |
| LegacyCarousel.Step | guten-analyze/src/components/BookCarousel.tsx:49-82 | Autoplay never switches back on. Clicking the active book pauses autoplay and reports the book. A tick while paused changes nothing. Otherwise the index moves exactly as in the refactored carousel, and stays in range. |
| LegacyCarousel.AutoplayNeverResumes | guten-analyze/src/components/BookCarousel.tsx:21-82 | Once paused, autoplay stays paused through any run, and a run that selects a book ends paused. |
| LegacyCarousel.RunStaysInRange | guten-analyze/src/components/BookCarousel.tsx:66-76 | The index stays in [0, n) along any run of renderable events. |
| Progress.StatusIdRoundTrip | guten-analyze/src/components/AnalysisProgress.tsx:2-7 | Each status is named by its own string and by no other. |
| Progress.IsCompleted | guten-analyze/src/components/progress-indicator/StepIndicator.tsx:9-13 | A step is completed iff the analysis is complete, or the step names a pipeline stage strictly before the current one. |
| Progress.CompletionIsOrdered | guten-analyze/src/components/progress-indicator/StepIndicator.tsx:9-15 | A marker is never both completed and current, and advancing the status never un-completes a step. |
| Progress.ActiveAtEnds | guten-analyze/src/components/progress-indicator/StepIndicator.tsx:9-15 | At idle no marker is highlighted; at complete all three are. |
| Progress.IsActive | guten-analyze/src/components/progress-indicator/StepIndicator.tsx:15 | A step marker is highlighted iff its stage has started (its rank is at most the current one). Any other id is highlighted only at complete or while the status it names is current. |
| Progress.GlyphOf | guten-analyze/src/components/progress-indicator/StepIndicator.tsx:36 | ✓ iff completed; ● iff current but not completed; ○ iff not highlighted. |
| Progress.ShowsPing | guten-analyze/src/components/progress-indicator/StepIndicator.tsx:32-34 | The ping is shown iff the step's id names the current status. |
| Progress.ProgressWidth | guten-analyze/src/components/progress-indicator/ProgressBar.tsx:8-15 | The width is 0% iff idle, 33.33% iff fetching metadata, 66.66% iff fetching text, and 100% iff analyzing or complete. |
| Progress.WidthMonotone | guten-analyze/src/components/progress-indicator/ProgressBar.tsx:8-15 | The bar never shrinks as the analysis advances, and stays within 0–100%. |
| Progress.GetAnalysisStatusText | guten-analyze/src/components/progress-indicator/utils.ts:3-14 | Each in-progress stage has its own message. The heading is "Analyze" iff the status is idle or complete. |
| LegacyProgress.MarkerRulesAgree | guten-analyze/src/components/AnalysisProgress.tsx:71-120 | For the three step ids, the inline highlight and glyph rules equal the refactored ones. |
| LegacyProgress.HighlightDiffersOffSteps | guten-analyze/src/components/AnalysisProgress.tsx:72-81 | For an id outside the three, at "complete" the refactored rule always highlights it, while the inline rule highlights it iff the id is "complete" itself. |
| LegacyProgress.WidthAndTextAgree | guten-analyze/src/components/AnalysisProgress.tsx:29-61 | The inline bar width and heading equal the refactored ones on every status. |
| LegacyProgress.RenderAgrees | guten-analyze/src/components/AnalysisProgress.tsx:10-133 | The legacy indicator renders the same heading, width and markers as the refactored one, for every status. |
| AnalyzeBookRoute.Truncate | guten-analyze/src/app/api/analyze/book/route.ts:21 | The result is the prefix of the text of length min(length, 20000). |
| AnalyzeBookRoute.ShownTitle | guten-analyze/src/app/api/analyze/book/route.ts:24 | A non-empty title is shown as given; a missing or empty one becomes "unknown". |
| AnalyzeBookRoute.PromptEmbedsText | guten-analyze/src/app/api/analyze/book/route.ts:23-66 | Reading the text back out of a prompt gives the text it was built with. Only the prompt built from that title and text reads back to it. |
| AnalyzeBookRoute.PromptNamesBook | guten-analyze/src/app/api/analyze/book/route.ts:23-24 | The prompt opens by naming the book in quotes. |
| AnalyzeBookRoute.CompletionRequestContents | guten-analyze/src/app/api/analyze/book/route.ts:69-73 | The request has one user message, the fixed model and temperature 0.2. Its prompt names the book and carries exactly the truncated text. |
| AnalyzeBookRoute.Fail | guten-analyze/src/app/api/analyze/book/route.ts:84-93 | A thrown error becomes status 500 whose error is "Failed to analyze book: " followed by exactly the thrown message. |
| AnalyzeBookRoute.EmptyReplyText | guten-analyze/src/app/api/analyze/book/route.ts:76-92 | An empty reply from the model is answered 500 with exactly "Failed to analyze book: Empty response from LLM". |
| AnalyzeBookRoute.Handle | guten-analyze/src/app/api/analyze/book/route.ts:9-95 | An unreadable body gives 500 and no request. A missing or empty text gives 400 "No text provided for analysis" and no request. Otherwise exactly the completion request is sent, and the response is what its reply leads to. |
| AnalyzeBookRoute.Respond | guten-analyze/src/app/api/analyze/book/route.ts:76-83 | A failed call gives 500 with its message. Empty content gives 500 "Empty response from LLM". Otherwise the parse error gives 500, or the parsed value gives 200. |
| AnalyzeBookRoute.SuccessIffAllStagesSucceed | guten-analyze/src/app/api/analyze/book/route.ts:9-83 | The status is 200 iff the body has a text, the model answers with non-empty content, and that content parses. |
| AnalyzeBookRoute.ResponseShape | guten-analyze/src/app/api/analyze/book/route.ts:13-93 | Every response is 200 with data, 400, or 500. It carries an error iff it is not 200, and every 500 error starts with "Failed to analyze book: ". |
| AnalyzeBookRoute.NoTextNoRequest | guten-analyze/src/app/api/analyze/book/route.ts:13-18 | A body without text is answered 400 without calling the model. |

## Left out

- Carousel.Step: the book list is fixed for the step. In the source a new `bookIds` keeps `currentIndex` (carousel/index.tsx:21-24), so a shrunk list can leave the index out of range, and the next/prev handlers only wrap at exactly `n - 1` or `0`, so they never bring it back.
- Carousel.RunStaysInRange: the book list is fixed for the whole run. A change of `bookIds` mid-run can leave the index out of range, and the source never brings it back: `Carousel.OutOfRangeNeverReturns` shows that next only moves such an index further out.
- LegacyCarousel.RunStaysInRange: the book list is fixed for the whole run. A change of `bookIds` keeps `currentIndex` (BookCarousel.tsx:25-32) and can leave it out of range, and the source never brings it back.
- The circular start positions (`Math.cos`/`Math.sin`) and the d3 force simulation are not modelled: no forces, ticks, alpha, or restart. Of the simulation only the link list and its strengths are kept. These are floating-point physics, not logic.
- Not modelled, because they are rendering detail rather than logic:
  - the carousel's `scale` and `opacity` (floating point);
  - the animation durations;
  - all JSX markup;
  - `CharacterNode`'s background lookup;
  - the graph legend.
- React state plumbing is not modelled:
  - the selected character in `CharacterGraph.tsx` (`onNodeClick`, close);
  - the "Optimize Layout" and "Reset View" buttons;
  - React Flow's node and edge change handlers.
- Timers: the 3-second autoplay interval is an event `Tick` of the carousel, not a clock.
- The legacy carousel's placement arithmetic (`BookCarousel.tsx` lines 90-102) is the same as `carousel/index.tsx`, so both use `Carousel.Place`.
- `toLowerCase` is ASCII only. The reason it gives the same results is given above.
- GraphUtils.EdgeColorIgnoresCase: the claim covers ASCII case variants only. With JavaScript's full `toUpperCase`, "rivalſ" gets the default colour while its upper-cased form "RIVALS" gets the hostile one. The same holds for InteractionBadges.RelationshipBadgeIgnoresCase.
- AnalyzeBookRoute.Handle: the `console.error` logging of a caught error is not modelled, because it is a side effect that does not change the response.
- A `NaN` significance is not modelled: significance is a real number. In JavaScript every comparison with `NaN` is false, and `Math.max`/`Math.min` would propagate it.
- AnalyzeBookRoute.Handle: a `text` field that is not a string is not modelled, because the body carries `Option<string>` fields. A truthy number or a plain object would make `text.slice` throw a `TypeError`, which ends in the 500 branch. An array, even an empty one, is truthy and has a `slice` method, so it passes the check and reaches the model call with the array's elements interpolated into the prompt.
- AnalyzeBookRoute.Truncate: cuts after 20,000 characters of the model's strings. JavaScript counts UTF-16 code units, so a text with characters outside the Basic Multilingual Plane may be cut at a different place.
- The language-model client is an oracle parameter of `Handle`, and so is `JSON.parse`. Its API key, network errors and response object are not modelled. A reply without `choices[0]` throws in the source; the model folds it into the oracle's `Err`.
- The shape of the parsed analysis is not checked by the source, and the model keeps it as an opaque value.
- Prototype keys: `titles[id]` on a plain object also finds inherited names such as "constructor". The model's title table is a map with exactly the eight listed keys.
- The Gutenberg metadata and text fetchers, the search box, the tabs and the pages are outside this model.
