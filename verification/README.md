# Financial Football Manager — rule model

Financial Football Manager is a kiosk game. A player picks investment "assets" and drags them as cards onto a
football field. The field has three bands: defense, midfield and attack. A card is correct when its band suits the
player's investor profile (CONSERVADOR, MODERADO or ARROJADO). A finished match scores points, and the points may
win a prize from a stock list. A small HTTP backend keeps the prizes, the game records, a manual stock of
give-aways and the scoring configuration, and an admin dashboard aggregates the recorded games.

This project states the game's rule logic as pure Dafny functions over immutable records and proves what the rules
promise. The DOM, timers, storage and the network are left out.

| module | file | models |
|---|---|---|
| `Wrappers` | wrappers.dfy | `Option`, `Result` and the JSON-body field `Field<T>`, which is missing, null or given |
| `Seqs` | seqs.dfy | counting, filtering, find-index, stable descending sort and `slice(0, n)` on sequences |
| `Text` | text.dfy | ASCII whitespace, `trim`, whitespace collapsing, ASCII letter case and `cleanString` |
| `Utils` | utils.dfy | src/utils.js: field bands, expected zones, zone aliases, name normalisation, risk level, HTML escaping |
| `Match` | match.dfy | src/main.js: the match as a `MatchState` record, drops, collisions, formation, score, scoring configuration, name keyboard, timer pause flags |
| `Store` | store.dfy | src/store.js: configuration, prize choice, awards, prize and manual-stock CRUD, ranking |
| `Server` | server.dfy | server.js: rate limiter, admin key, prize validation and every API route as a state transition |
| `Legacy` | legacy.dfy | main.js: the older ruleset with its zone-permission table and average-suitability scoring |
| `Dashboard` | dashboard.dfy | src/dashboard.js: per-profile statistics, the asset × zone heatmap, the asset × profile matrix and the top lists |

The server and the browser store share one definition of the prize choice and of the ranking, because server.js
repeats the browser store's code for both. Lemmas in `Server` show that the two sides agree on awards and on
configuration saves.

Inputs that are not deterministic become parameters:

- the current time, in milliseconds, for the rate limiter;
- the calendar day of "today" and of each game record;
- the fresh ids that `crypto.randomUUID` would draw;
- the profile that `Math.random` picks.

Pixel geometry is modelled with `real`.

## Model

| member | source | states |
|---|---|---|
| Text.CleanString | src/store.js:39-41 | `String(s ?? "").trim().slice(0, max)`: exactly the shorter of `max` and the trimmed length, taken from `s` right after its leading whitespace and starting with no whitespace; for a positive `max` it is empty exactly when the trimmed text is empty |
| Text.CleanStringIgnoresPadding | src/store.js:39-41 | whitespace added before or after a text does not change its cleaned form |
| Text.CleanStringKeepsFittingText | src/store.js:39-41 | a text that fits and neither starts nor ends with whitespace comes back unchanged |
| Text.TrimIgnoresPadding | src/utils.js:9-12 | whitespace added on either side does not change what `trim` returns |
| Text.CollapseOfSingleSpaced | src/utils.js:9-12 | replacing runs of whitespace by one space leaves an already single-spaced text unchanged |
| Utils.Clamp | src/utils.js:1-3 | the result lies in `[lo, hi]` when `lo <= hi`, equals `v` inside the range and the nearer bound outside it; with `hi < lo` it is `lo`, as `Math.max(lo, Math.min(hi, v))` gives |
| Utils.ZoneFromPoint | src/utils.js:29-34 | attack exactly when `centerY < h/3`, midfield exactly when `h/3 <= centerY < 2h/3`, and defense otherwise |
| Utils.ZoneFromPointMonotone | src/utils.js:29-34 | a drop further down the field (a larger centre y) never gives a more attacking band |
| Utils.ExpectedZoneFor | src/utils.js:36-50 | defense up to the profile's first threshold, midfield up to the second, attack above it; the thresholds are 25/45 for CONSERVADOR, 35/60 for MODERADO and 50/80 for any other profile |
| Utils.ExpectedZoneMonotone | src/utils.js:36-50 | for a fixed profile the expected zone never moves back toward defense as suitability grows |
| Utils.ExpectedZoneByProfile | src/utils.js:36-50 | a bolder profile never expects a more attacking zone for the same suitability, because its thresholds are higher; suitability 40 gives midfield for CONSERVADOR and MODERADO and defense for ARROJADO |
| Utils.LookupZoneAlias | src/utils.js:53-60 | the zone whose Portuguese or English alias set contains the text, or none when no set does |
| Utils.NormalizeZoneName | src/utils.js:53-60 | the zone whose alias set contains the trimmed, lower-cased text; none for an empty or unknown name |
| Utils.ZoneNameIgnoresCase | src/utils.js:53-60 | upper-casing a zone name does not change what it is recognised as |
| Utils.ZoneNameIgnoresPadding | src/utils.js:53-60 | surrounding whitespace does not change what a zone name is recognised as |
| Utils.ZoneKeyRecognised | src/utils.js:53-60 | each zone's own key ("defense", "midfield", "attack") is recognised as that zone |
| Utils.RecognisedZonesMembership | src/utils.js:70-73 | a zone is in the normalised override list exactly when some entry of the list names it |
| Utils.RecognisedZonesEmpty | src/utils.js:70-73 | the normalised list is empty exactly when no entry is recognised |
| Utils.JoinedListNeverRecognised | src/utils.js:70-75 | a list with no recognised entry, joined with commas, is not a recognised single name either, so the formula applies |
| Utils.GetExpectedZoneForAsset | src/utils.js:66-79 | a non-empty normalised list override, else a recognised single-name override, else the formula on the suitability, which defaults to 50 |
| Utils.CorrectWithoutOverride | src/utils.js:77-85 | without an override a drop is correct exactly when its zone is the formula's zone |
| Utils.CorrectWithListOverride | src/utils.js:70-73 | with a list override a drop is correct exactly when its zone is on the list |
| Utils.CorrectWithNameOverride | src/utils.js:66-85 | with a single-name override a drop is correct exactly when its zone is the one that name normalises to |
| Utils.IsExpectedZone | src/utils.js:82-85 | against one zone, true exactly when the zone is that one; against a list, true exactly when the zone is on the list |
| Utils.NormalizeName | src/utils.js:9-12 | the result has no leading space, no two spaces in a row, no lower-case letter and at most 18 characters |
| Utils.NormalizeNameEmptyIffBlank | src/utils.js:9-12 | the name comes out empty exactly when the raw text is all whitespace |
| Utils.NormalizeNameFixesTrimmed | src/utils.js:9-12 | a name already in normal form that does not end with a space comes back unchanged |
| Utils.NormalizeNameLiveExtends | src/utils.js:9-19 | the live form equals the final form, or is the final form plus one trailing space when that is shorter than 18 characters |
| Utils.NormalizeNameNotIdempotent | src/utils.js:9-12 | some name changes when normalised a second time, because cutting at 18 characters after the trim can leave a trailing space |
| Utils.NormalizeNameLive | src/utils.js:14-19 | the live form has the same shape as `normalizeName`'s result: no leading space, single spaces, upper case, at most 18 characters |
| Utils.NormalizeNameLiveOfSpaced | src/utils.js:14-19 | a short single-spaced text with no leading space only gets upper-cased |
| Utils.NormalizeNameLiveIdempotent | src/utils.js:14-19 | the live normalisation is idempotent |
| Utils.GetRiskLevel | src/utils.js:103-107 | low up to 35, high above 60, medium in between |
| Utils.EscapeHtml | src/utils.js:109-116 | no `<`, `>`, `"` or `'` remains in the output |
| Utils.EscapeHtmlIsPerChar | src/utils.js:109-116 | because `&` is escaped first, the five passes act as one per-character substitution |
| Utils.EscapeHtmlRoundTrip | src/utils.js:109-116 | decoding the five entities gives back the original text |
| Match.IdealFormation | src/main.js:35-39 | every profile's ideal lineup has 6 cards, with at least 1 defense, 2 midfield and 1 attack card |
| Match.IdealFormationsDistinct | src/main.js:35-39 | the three profiles have three different ideal lineups |
| Match.FormationCounts | src/main.js:292-300 | defense + midfield + attack equals the number of placed cards |
| Match.ZonesPartitionCards | src/main.js:292-300 | the three per-zone counts add up to the number of placed cards |
| Match.FormationIgnoresOrder | src/main.js:292-300 | the formation counts do not depend on the order of the cards |
| Match.IdealFormationHasSixCards | src/main.js:302-308 | a profile with counts equal to its ideal lineup has an ideal formation, which therefore has 6 cards |
| Match.CorrectCountIsCount | src/main.js:1611 | the reduce over `correct` counts exactly the correct cards |
| Match.ComputeScore | src/main.js:310-319 | the score lies between 0 and the maximum score |
| Match.ScoreIgnoresOrder | src/main.js:310-319 | the score depends only on the counts, not on the order of the cards |
| Match.PerfectMatchScoresMax | src/main.js:310-319 | with the default rules, an ideal lineup of 6 correct cards scores 38 |
| Match.WrongCardNeverHelps | src/main.js:310-319 | adding a wrong card that does not complete the ideal lineup never raises the score |
| Match.NewMatch | src/main.js:1275-1295 | a new match has no cards and a score of 0, and it satisfies the match invariant |
| Match.CheckCollision | src/main.js:1498-1510 | a hit exactly when some other card's position overlaps within the card size less the 5-pixel margin |
| Match.OverlapSymmetric | src/main.js:1498-1510 | the overlap test is symmetric in the two positions |
| Match.ProcessDrop | src/main.js:1410-1496 | an unknown asset, a drop outside the field, a new card on a full team or a collision changes nothing; any answer past the asset lookup other than "outside" means the drop point lies inside the field; an accepted drop removes the card's old entry, appends the clamped placement with its band and correctness, and keeps ids unique and the team at 6 or fewer |
| Match.MoveOrAdd | src/main.js:1443-1446 | the card's old entry, if any, is dropped, the card goes at the end, and ids stay distinct |
| Match.RemoveCard | src/main.js:930-938 | the close button removes exactly the card with that id and keeps the rest; a valid match stays valid, so the score is recomputed for the remaining cards |
| Match.OpenHelp | src/main.js:1180-1187 | during a timed match, opening help pauses the timer and marks it paused by help; otherwise nothing changes |
| Match.CloseHelp | src/main.js:1189-1196 | closing help clears its mark and resumes only when the cancel dialog is not holding the pause |
| Match.OpenCancel | src/main.js:1198-1205 | during a timed match, opening the cancel dialog pauses the timer and marks it paused by cancel |
| Match.CloseCancel | src/main.js:1207-1214 | closing the cancel dialog clears its mark and resumes only when help is not holding the pause |
| Match.NestedDialogsKeepTimerPaused | src/main.js:1180-1214 | with both dialogs open, closing one of them keeps the timer paused |
| Match.Tick | src/main.js:539-556 | a paused timer does not move; a running one loses a second and ends the match at 0 or below |
| Match.FinalizeGame | src/main.js:1605-1616 | the final score uses the same formula as the running score, lies between 0 and the maximum, and clears both pause marks |
| Match.ApplyScoringConfig | src/main.js:1707-1713 | with a configuration present, points per correct card, the bonus and points per wrong card are not negative and the maximum is at least 1; a zero or missing value takes its default |
| Match.ZeroFallsBackToDefault | src/main.js:1707-1713 | a configuration of zeros gives the default rules 3/0/20/38 |
| Match.SaneConfigTakenAsIs | src/main.js:1707-1713 | sane positive values are taken as they are |
| Match.ApplyNameKey | src/main.js:1004-1021 | backspace drops the last character; space is ignored on an empty buffer or after a space; a letter is ignored once 18 characters are held; OK submits the normalised name unless it is only spaces |
| Match.LiveAfterAppend | src/main.js:995-1021 | after a typed character the displayed buffer is the old buffer plus the upper-cased character, or the old buffer once it holds 18 |
| Store.FieldInt | src/store.js:34-37 | the given number whenever a number was sent; the default when the field is missing, null or not a number |
| Store.SaveConfig | src/store.js:56-69 | an absent field keeps its value; a present one is clamped, points and bonus to 0 or more and the maximum to 1 or more |
| Store.SaveConfigRoundTrip | src/store.js:56-69 | saving every field of a sane configuration stores exactly that configuration |
| Store.SaveConfigIdempotent | src/store.js:56-69 | saving the same body twice gives the same configuration as saving it once |
| Store.SavedZeroPointsScoreDefault | src/store.js:56-69 | a saved 0 points per correct card is stored as 0 but played as 3 |
| Store.PickAward | src/store.js:43-49 | an eligible prize (stock above 0, threshold within the points) of the highest threshold, or none exactly when no prize is eligible |
| Store.PickAwardIsFirstBest | src/store.js:43-49 | the stable sort settles ties on the threshold in favour of the earliest prize |
| Store.AwardPrize | src/store.js:147-165 | with stock taken per game and a prize chosen, only that prize loses one unit, floored at 0; otherwise the list is unchanged |
| Store.AwardTakesFromPickedPrize | src/store.js:154-161 | the prize that loses stock is the one chosen, and every other prize is unchanged |
| Store.AwardTakesOneUnit | src/store.js:154-161 | when a prize is awarded from stock, the total stock drops by exactly one |
| Store.NewGameRecord | src/store.js:167-182 | the record holds the day, the points, the cards and the awarded prize's name, or no prize |
| Store.TryAwardPrize | src/store.js:147-192 | exactly one game record is appended, with the cleaned name and profile, the points, the cards, today's day and the awarded prize's name; the prizes, the prize answered and the remaining stock are those of `awardPrize` on the points; the configuration and manual stock are untouched; prizes change only when stock is taken per game |
| Store.AwardedGameIsRanked | src/store.js:137-192 | today's award is in today's ranking unless 50 better games fill it |
| Store.NewPrizeId | src/store.js:90 | the sent id cleaned to 30 characters when it is not blank, and the fresh id when it is |
| Store.AddPrize | src/store.js:88-101 | an existing id is refused and nothing changes; otherwise the new prize is appended and ids stay distinct |
| Store.PatchPrize | src/store.js:103-113 | an unknown id is refused; otherwise only the sent fields of that prize change |
| Store.PatchPrizeNothingSent | src/store.js:103-113 | an update that sends no field leaves the list unchanged |
| Store.DeletePrize | src/store.js:115-122 | not found when no prize has the id; otherwise exactly the prizes with that id are removed |
| Store.DeletePrizeRemovesExactly | src/store.js:115-122 | after a delete no prize has the id, and every other prize is still there |
| Store.AppendGame | src/store.js:130-135 | the games list grows by the one record at its end |
| Store.Ranking | src/store.js:137-145 | today's games only, each no more often than it was played, sorted by points with the highest first, exactly the lesser of 50 and the number of today's games |
| Store.RankingKeepsBest | src/store.js:137-145 | a game of today is in the ranking, or the ranking is full of games with at least as many points |
| Store.RankingKeepsTieOrder | src/store.js:137-145 | the sort is stable: the ranked games with a given score are the first of today's games with that score, in the order they were saved, and all of them when the ranking is not full |
| Store.AddManualItem | src/store.js:210-221 | an empty name or a negative quantity is refused; otherwise the item is appended |
| Store.PatchManualItem | src/store.js:223-232 | an unknown id is refused; otherwise only that item changes and no quantity becomes negative |
| Store.DeleteManualItem | src/store.js:234-239 | not found when no item has the id; otherwise the items with that id are removed |
| Store.WithdrawManualItem | src/store.js:241-250 | an unknown id is refused; otherwise that item's quantity drops by one, floored at 0, and the old quantity is returned |
| Store.WithdrawTakesOneUnit | src/store.js:241-250 | a withdrawal lowers the total quantity by exactly one when the item held some; an item at 0 or below is raised to 0 |
| Server.CheckRateLimit | server.js:41-57 | an unseen address passes with count 1; after a quiet minute the count restarts at 1; otherwise the call passes exactly when the count is below the limit, and a refused call changes nothing |
| Server.CheckRateLimitKeepsBound | server.js:41-57 | no address ever counts more calls than the limit |
| Server.BurstWithinWindow | server.js:41-57 | calls within a minute of the last allowed one add at most what the limit leaves |
| Server.AtMostMaxPerWindow | server.js:41-57 | a new address gets at most the limit's number of calls through within a minute of its first call |
| Server.WindowFollowsLastAllowedCall | server.js:41-57 | the window runs from the last allowed call: from an unknown address, up to `max` calls each at most a minute after the one before are all allowed and counted one by one, however long the whole run lasts |
| Server.CleanRateLimitMap | server.js:30-38 | cleaning forgets exactly the addresses that have been idle for more than a minute |
| Server.CleaningKeepsDecisions | server.js:30-57 | cleaning the table before a later call changes neither the decision nor the caller's entry |
| Server.StripBearer | server.js:61 | a header without the "Bearer" prefix comes back unchanged; with it, the prefix and the whitespace after it are removed, leaving a shorter suffix |
| Server.RawKeyAccepted | server.js:59-66 | with a key configured, no x-admin-key header and no "Bearer" prefix, the authorization header passes exactly when it is the key itself |
| Server.StripBearerRoundTrip | server.js:61 | a token after "Bearer" in any letter case and whitespace comes out whole, unless the token itself starts with whitespace |
| Server.RequireAdmin | server.js:59-66 | with no key configured every request passes; otherwise the x-admin-key header, or failing that the bearer token, must equal the key |
| Server.BearerKeyAccepted | server.js:59-66 | the configured key sent as a bearer token is accepted |
| Server.ValidatePrizeInput | server.js:84-97 | full mode needs a non-empty trimmed name, stock of 0 or more and a threshold of 0 or more; partial mode checks only the keys present; name errors come first |
| Server.ValidationModes | server.js:84-97 | a body valid for creation is valid for an update, and an empty update is valid |
| Server.PostConfig | server.js:207-217 | an absent field keeps its value; points and bonus are clamped to 0 or more and the maximum to 1 or more |
| Server.PostConfigAgreesWithStore | server.js:207-217 | the server saves every field the browser store saves, by the same rules, except points per wrong card |
| Server.ServerGamesNeverPenaliseWrongCards | server.js:106-131 | a game configured by the server never takes points for a wrong card |
| Server.CreatePrize | server.js:236-256 | an invalid body gives 400 and a duplicate id 409, with no write; otherwise the prize appended and answered has the sent id cleaned to 30 characters (the fresh id when that is blank), the name cleaned to 60 characters and the parsed stock and threshold |
| Server.UpdatePrize | server.js:258-275 | an invalid body gives 400 and an unknown id 404, with no write; otherwise only the sent fields of that prize change |
| Server.RemovePrize | server.js:352-364 | 404 with no write when nothing matches; otherwise the prizes with the id are removed |
| Server.CreateItem | server.js:287-303 | an empty name or a negative quantity gives 400; otherwise the item appended has the fresh id, the name cleaned to 80 characters and the parsed quantity |
| Server.UpdateItem | server.js:305-320 | an unknown id gives 404; otherwise the item is updated and its quantity is clamped to 0 or more |
| Server.RemoveItem | server.js:322-333 | always success; afterwards no item has the id and every other item is kept |
| Server.RemoveUnknownItemIsNoop | server.js:322-333 | deleting an unknown item answers success and changes nothing |
| Server.WithdrawItem | server.js:335-350 | an unknown id gives 404; otherwise the quantity drops by one, floored at 0, and the old quantity is returned |
| Server.Award | server.js:366-412 | 429 with no change once the address is over its limit; otherwise exactly one game record is appended with the parsed points, the cleaned name and profile, today's day and the awarded prize's name, the prizes, the prize answered and the remaining stock are those of `awardPrize`, the record has the fresh id and the cards exactly as sent (none when missing), the address's rate entry is the one the limiter recorded, and the configuration and the manual stock stay as they were |
| Server.AwardAgreesWithStore | server.js:98-104 | the server's award and the browser store's award agree on the prizes, the games and the answer |
| Server.RankingRoute | server.js:414-438 | 429 once the address is over its limit; otherwise today's ranking, at most 50 games sorted by points, and the address's rate entry is the one the limiter recorded |
| Server.Handle | server.js:197-438 | an admin route with a wrong key gives 401 and changes nothing; only award and ranking can give 429; a failed request changes nothing |
| Server.HandleKeepsInvariant | server.js:197-438 | no request can break distinct named prizes with stock and threshold of 0 or more, quantities of 0 or more, or the rate-limit bounds |
| Legacy.ZoneRefusal | main.js:80-96 | a refusal message exactly for the six listed (profile, zone, risk class) combinations, with safe at 40 or less and risky above 70 |
| Legacy.GetAllowedZones | main.js:98-104 | each flag is true exactly when that zone is not refused |
| Legacy.SomeZoneAlwaysAllowed | main.js:80-104 | for every suitability and profile at least one zone is allowed |
| Legacy.NewGame | main.js:381-399 | a new game has no cards and keeps its profile |
| Legacy.CheckCollision | main.js:546-558 | a hit exactly when some other card overlaps the 90 × 126 card less the 5-pixel margin |
| Legacy.DropPosition | main.js:504-508 | on each axis the card keeps the dropped position when the card fits there, and otherwise goes to the nearer edge (the left or top edge when the field is narrower than the card) |
| Legacy.DropPositionStable | main.js:504-508 | dropping a card again at the position it was given, with no grab offset, leaves it there |
| Legacy.ProcessDrop | main.js:496-544 | an unknown asset, a drop outside the field, a new card on a full team, a collision or a refused zone changes nothing; any answer past the asset lookup other than "outside" means the drop point lies inside the field; otherwise the card is moved or added and the others kept |
| Legacy.Place | main.js:533-590 | the card goes at the end after its old entry is removed, and ids stay distinct |
| Legacy.RemoveCard | main.js:578-585 | the close button removes exactly the cards with that id |
| Legacy.RoundDiv | main.js:610 | `Math.round(total / n)` for a positive count: the nearest integer, with halves rounded up |
| Legacy.RoundDivUnique | main.js:610 | any integer that rounds the same way equals the result |
| Legacy.FinalizeGame | main.js:606-620 | nothing with no cards; otherwise the rounded average, and 50 + 10 per card in range or `max(0, 50 - distance)` out of range |
| Legacy.CloserAverageScoresMore | main.js:613-620 | of two averages outside the profile's range, the nearer one never scores less |
| Legacy.OnTargetBeatsOffTarget | main.js:613-620 | an average in range always beats an average out of range |
| Dashboard.NamedKeysRoundTrip | src/dashboard.js:106-116 | each profile's and each zone's key is read back as that profile and zone |
| Dashboard.FilterGames | src/dashboard.js:107-110 | "ALL" keeps every game; any other filter keeps exactly the games whose upper-cased profile equals it: all of them, nothing else, none twice |
| Dashboard.RenderStats | src/dashboard.js:47-56 | the total is the number of games; each profile count is the number of games with that profile, and the three sum to at most the total; a name is counted exactly when some game has it after trim and upper-casing, and a blank name never is |
| Dashboard.SameNameCountsOnce | src/dashboard.js:51-53 | two games whose names differ only in case and padding are counted as one name |
| Dashboard.SightingsOf | src/dashboard.js:111-118 | one sighting per card of the game, in order, carrying the card's asset key, its lower-cased zone and the game's upper-cased profile |
| Dashboard.SightingsAppend | src/dashboard.js:111-118 | the sightings of two lists of games are the sightings of the first followed by those of the second |
| Dashboard.SightingsAreCards | src/dashboard.js:111-118 | every card of every game is seen |
| Dashboard.SightingFromCard | src/dashboard.js:111-118 | every sighting is that of some card of some game |
| Dashboard.HeatmapOf | src/dashboard.js:188-199 | an asset has a row exactly when one of its cards is in a known zone and its key is not a property every JavaScript object inherits (such as "constructor" or "toString", for which `!map[assetKey]` is false on `{}`); each row holds the per-zone card counts |
| Dashboard.BuildHeatmapData | src/dashboard.js:181-201 | the same, over the games the profile filter keeps |
| Dashboard.MatrixOf | src/dashboard.js:111-120 | an asset has a row exactly when one of its cards comes from a game of a known profile and its key is not an inherited property name; each row holds the per-profile card counts |
| Dashboard.BuildMatrixAssetProfile | src/dashboard.js:104-126 | the same, over the games the profile filter keeps |
| Dashboard.MatrixUnderFilterHasOneColumn | src/dashboard.js:104-126 | under a profile filter, every row has cards only in that profile's column |
| Dashboard.TallyOf | src/dashboard.js:157-163 | one row per distinct key, whose count is the number of items with that key |
| Dashboard.TallyOfFirstAppearance | src/dashboard.js:157-163 | the rows are in the order their keys first occur among the items |
| Dashboard.TopRows | src/dashboard.js:164-167 | exactly the lesser of `n` and the tally's length in rows, each taken from the tally no more often than it occurs there, sorted by count with the highest first; distinct keys stay distinct |
| Dashboard.TopRowsKeepBusiest | src/dashboard.js:164-167 | a row left out of the top `n` counts no more than the last row kept |
| Dashboard.TopRowsKeepTieOrder | src/dashboard.js:164-167 | the sort is stable: the listed rows with a given count are the first rows with that count, in tally order, and all of them when fewer than `n` rows are listed |
| Dashboard.RenderByUser | src/dashboard.js:156-167 | one row per distinct name, as many as there are names up to 50, drawn from the tally and sorted by count; each row counts the games of that trimmed name, with "—" for a blank one |
| Dashboard.ByUserKeepsBusiest | src/dashboard.js:156-167 | every player is listed, or the list is full of players with at least as many games |
| Dashboard.RenderTopByZone | src/dashboard.js:229-259 | one row per asset placed in the zone, as many as there are such assets up to 10, drawn from the zone's tally and sorted by count; each row counts the cards of that asset placed in the zone |
| Dashboard.TopByZoneKeepsBusiest | src/dashboard.js:229-259 | an asset placed in the zone but missing from its list was placed there no more often than the last asset listed |
| Dashboard.TopByZoneAgreesWithHeatmap | src/dashboard.js:181-259 | an asset in a zone's top list has a heatmap row exactly when its key is not an inherited property name (the list is built with arrays and has no such gap), and then the list's count equals the heatmap's count for that zone |

## Left out

- User interface: DOM rendering, animations, drag-gesture tracking, toasts, the ranking screen, the carousel and the
  relative `rx`/`ry` positions kept for resizing are not modelled. They decide nothing about the rules.
- Timers: `setInterval`, `setTimeout` and the countdown are not modelled. `Match.Tick` is one tick of the match
  timer, and the caller decides when ticks happen.
- Storage: persistence, sessionStorage, the temporary-file writes and express routing are not modelled. Each route
  is a function from the server's documents to new documents and a response. The race between concurrent awards
  has no counterpart in this sequential model.
- Server errors: the 500 answers are not modelled, because they come only from file failures.
- src/api.js, src/admin.js, src/estoque-manual.js, scripts/copy-to-dist.js and vite.config.js are not part of this
  model. They are glue, page rendering and build tooling.
- Text handling: letter case and `\s` are modelled on ASCII. JavaScript's Unicode case mapping and whitespace set
  are larger.
- Number parsing: `Number.parseInt` is not modelled. A numeric body field is `Given(Some(n))` when it parses and
  `Given(None)` when it does not.
- Match.ApplyScoringConfig: `Number(x) || default` keeps a fractional value such as 0.5. The model's scoring
  values are integers, so such a value has no counterpart.
- Store.FieldInt: `Number.parseInt` truncation and string parsing are not modelled. The field already holds the
  parsed number, or `None` when parsing fails. Every stored prize, quantity and configuration value is taken to
  be an integer.
- Store.TryAwardPrize: the caller passes ready-made card records. The mapping from `placedCards` to records
  (`c.asset?.id`, `Math.round(c.x)`, src/store.js:174-181) is not modelled.
- Stored documents: the prize file is taken to hold full prize records, with no `null` entries. The `x &&` guard
  in `pickAward` therefore never fires.
- Stored configuration: the stored file is taken to hold a full record. `readConfig` spreads it over the defaults.
- Dates: the time-zone conversion behind "today" is not modelled. A game record carries its calendar day, or none
  when it has no timestamp, and today's day is a parameter.
- Ids: `crypto.randomUUID` is not modelled; the fresh id is a parameter.
- Profile choice: `Math.random` profile choice and shuffling are not modelled. The profile is a parameter of
  `Match.NewMatch` and `Legacy.NewGame`.
- Legacy.NewGame: the older game always has a profile, because its `initGame` draws one before play.
  `currentProfileKey` is therefore never null there.
- Match.ProcessDrop: the card's placement is the clamped position, its band and its correctness. The card-size
  scaling that follows the field's size is a parameter (`CardSize`).
- `closeCardDetails` (src/main.js:649-653) resumes the timer without looking at the help or cancel marks. The
  card-details dialog is not modelled, so only the help and cancel flags are.
- Server.CleanRateLimitMap: the table is cleaned once a minute by `setInterval`. The model cleans it at a time
  the caller chooses, and `Server.CleaningKeepsDecisions` shows this never changes a decision.
- Dashboard: floating averages, percentages, heat colours and the per-user average column are not modelled.
  `renderProfileMetrics` and `renderByDay` are left out for the same reason: they are float averages and dates.
- Dashboard.HeatmapOf: display names and the row order of `Object.entries` are not modelled. A row is keyed by the
  asset key and holds the counts only. An asset whose key is an inherited property name gets no row, as the
  contract states; the increments such an asset then makes on the inherited object itself (for `__proto__`, on
  `Object.prototype`) are not modelled.
- Dashboard.BuildMatrixAssetProfile: display names and row order are not modelled, as for the heatmap. `total` is
  `Dashboard.Total` of the row's counts.
- Server.Award: `cards` is stored exactly as sent (server.js:375). The model takes every element to be a
  well-formed card record; a `null` element or a zone that is not a string makes the dashboard fail to load,
  and that failure is not modelled.
- Dashboard.RenderTopByZone: the display name of a row is not modelled. The rows carry the key and the count.
- Legacy `normalizeName` (main.js:53-59) is the same function as `normalizeName` in src/utils.js, so it is
  modelled once, as `Utils.NormalizeName`.
- Legacy `getRiskBorderClass` and `getThemeClass` only choose CSS classes. The risk classes themselves are
  `Legacy.ClassOf`.

MODERADO's thresholds are 35 and 60, so suitability 40 gives midfield (`Utils.ExpectedZoneByProfile`).
