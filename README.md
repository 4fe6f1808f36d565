# Asset register app: screen logic in Dafny

This project models the logic inside the screens of a small React Native app for an
asset register. Staff record assets: a department, a code, a purchase date, a quantity, a
unit cost, photos and so on. They browse the assets in folders by department, open one
to see how far it has depreciated, and sign in first. The data itself lives in a hosted
database behind an SDK, which is not modelled. The model covers what the screens
compute from the rows they get, and what the entry form does with its own state:

- **Depreciation** (`Depreciation`, `AssetDetail`). The elapsed time since purchase is
  measured in 365-day years over a three-year horizon, times 100, rounded as `Math.round`
  rounds, and capped at 100. The module also covers the colour bands of the two screens,
  and the days left until three *calendar* years after purchase, computed with `setFullYear`.
  The date arithmetic follows ECMA-262's day-number formulas (`Calendar`). February 29th
  rolls to March 1st exactly as `setFullYear` does.
- **Detail card** (`AssetDetail`). The nine candidate rows and the rule that a row is shown
  exactly when its value is not `undefined`.
- **Asset list** (`AssetsList`). The relative purchase time ("5m ago"), the case-insensitive
  search, and the grouping of assets into department folders. The grouping is a loop that
  builds a dictionary; it is proved against a recursive definition and against an
  independent filter definition of a folder. The module also covers the card's title and
  image fallbacks.
- **Entry form** (`AssetForm`). The form is a class whose fields are the component's state.
  Its handlers reset the form, append a photo, store a picked date and recompute the
  depreciation, load the known departments, and submit. Beside the class are the
  de-duplication of departments, the autocomplete suggestions, and the submission guard
  with its trimming.
- **Login** (`Login`). The e-mail shape `^\S+@\S+\.\S+$` and the empty-field guard in front
  of the sign-in call.
- **Life span helper** (`Lifespan`). The years of service left, never below zero.

Values the app reads from a clock, a camera or the backend are parameters: `now` (in
milliseconds since the epoch), the camera's answer, the query's answer, and whether the
insert succeeded. A database column may be absent, `null`, or hold a value (`Assets.Field`),
because the screens treat those three cases differently.

The depreciation horizon is the constant 3 years: `MAX_DEPRECIATION_YEARS` on the detail
screen (screens/AssetDetailScreen.tsx:19) and the literal `/ 3` in the form
(screens/AssetFormScreen.tsx:92). The percentage is capped at 100 with `Math.min` and has
no lower bound, so a purchase date in the future gives a negative percentage
(`Depreciation.PercentNegativeForFuturePurchase`).

## Model

| member | source | states |
|---|---|---|
| Assets.DisplayTitle | screens/AssetsListScreen.tsx:133 | the title is never empty: the name if truthy, else the code if truthy, else "Unnamed Asset" (the detail screen uses the same expression at screens/AssetDetailScreen.tsx:127) |
| Depreciation.RoundHalfUp | screens/AssetDetailScreen.tsx:41-44 | the result is the nearest integer to n/d, halves going up: 2dr ≤ 2n+d < 2dr+2d |
| Depreciation.PercentOfLife | screens/AssetDetailScreen.tsx:39-44 | never above 100; equals 100 exactly when at least 99.5% of 3 × 365 days have passed; otherwise it is the rounded percentage of that horizon; it is ≥ 0 exactly when the elapsed time is at least minus half a percent of the horizon |
| Depreciation.PercentMonotone | screens/AssetDetailScreen.tsx:39-44 | more elapsed time never gives a lower percentage |
| Depreciation.PercentInRangeWhenPast | screens/AssetDetailScreen.tsx:39-44 | for a purchase in the past the percentage lies in [0, 100] |
| Depreciation.PercentNegativeForFuturePurchase | screens/AssetDetailScreen.tsx:41-44 | there is no lower clamp: 30 days before purchase the percentage is -3 |
| Depreciation.PercentFullAfterHorizon | screens/AssetDetailScreen.tsx:39-44 | from 3 × 365 days on, the percentage is 100 |
| Calendar.ThreeYearSpan | screens/AssetDetailScreen.tsx:59-61 | `setFullYear(year + 3)` moves any date on by 1095 or 1096 days, February 29th included |
| AssetDetail.CalculateDepreciation | screens/AssetDetailScreen.tsx:35-45 | 0 without a purchase date; never above 100; not negative once the purchase is in the past |
| AssetDetail.DepreciationMonotoneInNow | screens/AssetDetailScreen.tsx:35-45 | with the purchase fixed, depreciation never decreases as time advances |
| AssetDetail.DetailColour | screens/AssetDetailScreen.tsx:50-54 | green exactly below 40, orange exactly from 40 to 69, red exactly from 70 |
| AssetDetail.DetailColourMonotone | screens/AssetDetailScreen.tsx:50-54 | a higher percentage never gets a milder colour |
| AssetDetail.CeilDiv | screens/AssetDetailScreen.tsx:64 | `Math.ceil(n / d)`: the least r with n ≤ d·r |
| AssetDetail.RemainingDays | screens/AssetDetailScreen.tsx:59-64 | never negative; 0 exactly once `now` reaches purchase + 3 calendar years; otherwise the whole days left, rounded up |
| AssetDetail.RemainingDaysNonIncreasing | screens/AssetDetailScreen.tsx:59-64 | the days left never increase as time advances |
| AssetDetail.RemainingDaysAtPurchase | screens/AssetDetailScreen.tsx:59-64 | at the moment of purchase, 1095 or 1096 days remain |
| AssetDetail.NoDaysLeftMeansFullyDepreciated | screens/AssetDetailScreen.tsx:35-64 | the two clocks agree: once no day is left, depreciation is 100 |
| AssetDetail.RemainingLabel | screens/AssetDetailScreen.tsx:65 | the label ends in " day remaining" exactly when days = 1, and in " days remaining" otherwise |
| AssetDetail.RemainingLabelNumber | screens/AssetDetailScreen.tsx:65 | the number printed in the label reads back as the day count |
| AssetDetail.GetRemainingTime | screens/AssetDetailScreen.tsx:57-66 | "-" exactly when there is no purchase date; otherwise the label for the days left |
| AssetDetail.UnitCostText | screens/AssetDetailScreen.tsx:138-141 | a unit cost value exists exactly when the cost is truthy (present and not 0); it is then "$" followed by the amount |
| AssetDetail.VisibleRows | screens/AssetDetailScreen.tsx:133-158 | the rows shown keep the literal's order, and are exactly the candidates whose value is not `undefined` |
| AssetDetail.CandidateByCaption | screens/AssetDetailScreen.tsx:133-145 | the nine captions are distinct, so a caption names one candidate row |
| AssetDetail.ShownIffDefined | screens/AssetDetailScreen.tsx:146-148 | a row with a given caption is on screen exactly when that candidate's value is not `undefined` |
| AssetDetail.NeedsRepairAlwaysShown | screens/AssetDetailScreen.tsx:144 | "Needs Repair" is always shown: "Yes" exactly when repair is needed, else "No" |
| AssetDetail.UnitCostShownIffTruthy | screens/AssetDetailScreen.tsx:138-148 | "Unit Cost" is shown exactly when the cost is truthy, and then as "$" and the amount |
| AssetDetail.DepartmentShownIffDefined | screens/AssetDetailScreen.tsx:134-148 | "Department" is shown exactly when the column is not `undefined`, even when it is `null` |
| AssetDetail.MidLifeExample | screens/AssetDetailScreen.tsx:35-66 | bought 2022-01-01 and viewed 2023-07-01: 50%, 550 days left, orange |
| AssetDetail.PastHorizonExample | screens/AssetDetailScreen.tsx:35-66 | bought 2020-01-01 and viewed 2025-01-01: 100%, no days left |
| AssetsList.AgoOf | screens/AssetsListScreen.tsx:20-28 | the unit is seconds below a minute, minutes below an hour, hours below a day, days from then on; the number is the floor of the difference in that unit, and is below 60 or below 24 where the next unit takes over |
| AssetsList.AgoMonotone | screens/AssetsListScreen.tsx:21-28 | a longer time ago never shows a finer unit, nor a smaller number in the same unit |
| AssetsList.TimeAgo | screens/AssetsListScreen.tsx:18-29 | "" exactly when there is no date; otherwise the number, the unit letter and " ago" |
| AssetsList.FilteredAssets | screens/AssetsListScreen.tsx:94-103 | an empty query returns the list unchanged; otherwise the result is an order-preserving sublist holding exactly the assets whose name, code or department contains the query, ignoring case, each matching asset as many times as in the input |
| AssetsList.DepartmentKey | screens/AssetsListScreen.tsx:49 | the folder name is never empty: the department if truthy, else "Unknown Department" |
| AssetsList.GroupAssetsByDepartment | screens/AssetsListScreen.tsx:46-54 | the loop builds the dictionary of the recursive definition. Each folder is non-empty and holds exactly its department's assets, in input order. Every asset's folder exists. |
| AssetsList.GroupsAreDepartmentGroups | screens/AssetsListScreen.tsx:46-54 | folder k exists exactly when some asset has key k, and then it equals the in-order filter of the assets by that key |
| AssetsList.ExactlyOneGroup | screens/AssetsListScreen.tsx:48-51 | every asset is in exactly one folder, the one named by its key |
| AssetsList.GroupSizesSum | screens/AssetsListScreen.tsx:46-54 | the folder sizes add up to the number of assets |
| AssetsList.GroupedAsWritten | screens/AssetsListScreen.tsx:47-51 | the loop on a plain object completes exactly when no asset's folder name is inherited from `Object.prototype`, and then agrees with the intended grouping |
| AssetsList.InheritedNameBreaksGrouping | screens/AssetsListScreen.tsx:49-51 | one asset of the department "toString" makes the loop throw, where the intended grouping gives it its own folder |
| AssetsList.CardImage | screens/AssetsListScreen.tsx:111-114 | the first stored image URL when there is one, else the placeholder |
| AssetForm.ResetIdempotent | screens/AssetFormScreen.tsx:187-202 | resetting a reset form changes nothing |
| AssetForm.Dedup | screens/AssetFormScreen.tsx:72-74 | the result holds every fetched value and nothing else, each exactly once |
| AssetForm.DedupSubsequence | screens/AssetFormScreen.tsx:72-74 | the de-duplicated values appear in input order |
| AssetForm.DedupFirstOccurrenceOrder | screens/AssetFormScreen.tsx:72-74 | the values come out in the order of their first occurrence, as a `Set` iterates |
| AssetForm.DedupOfDistinct | screens/AssetFormScreen.tsx:72-74 | a list without repeats comes back unchanged |
| AssetForm.FilteredDepartments | screens/AssetFormScreen.tsx:81-85 | no suggestions while the input is empty; otherwise an order-preserving sublist holding exactly the known departments that contain the input, ignoring case, each as many times as in the list |
| AssetForm.FormColour | screens/AssetFormScreen.tsx:204-208 | green exactly below 40, orange exactly from 40 to 79, red exactly from 80 |
| AssetForm.FormColourMonotone | screens/AssetFormScreen.tsx:204-208 | a higher percentage never gets a milder colour |
| AssetForm.ColourBandsDiffer | screens/AssetFormScreen.tsx:204-208 | the form is never more severe than the detail screen, and the two differ exactly from 70 to 79 |
| AssetForm.AfterDepreciationEffect | screens/AssetFormScreen.tsx:87-93 | without a date nothing changes; with one only the percentage changes, to the capped percentage of the elapsed time (≤ 100, and ≥ 0 for a past date) |
| AssetForm.WithPickedImage | screens/AssetFormScreen.tsx:95-108 | only the photo list changes; the old photos stay in front; exactly one URI is appended, at the end, exactly when a picture with a non-empty URI was captured |
| AssetForm.PrepareSubmission | screens/AssetFormScreen.tsx:130-173 | rejected exactly when department, staff name, code, purchase date, quantity or unit cost is empty; otherwise the row carries the trimmed department, staff name and code and every other field unchanged |
| AssetForm.ResetFormIsRejected | screens/AssetFormScreen.tsx:130-141 | a freshly reset form is never submitted |
| AssetForm.BlankDepartmentStoredEmpty | screens/AssetFormScreen.tsx:131-158 | a department of white space passes the guard and is stored as "" |
| AssetForm.InsertedFieldsTrimmed | screens/AssetFormScreen.tsx:158-160 | the stored department, staff name and code neither start nor end with white space |
| AssetForm.Form.constructor | screens/AssetFormScreen.tsx:34-50 | the form starts with the default values and no known departments |
| AssetForm.Form.ClearTextFields | screens/AssetFormScreen.tsx:188-196 | the typed text fields become empty; the other fields are outside its frame |
| AssetForm.Form.RestoreDefaultChoices | screens/AssetFormScreen.tsx:191-201 | no date, 0%, no photos, "Functional", no repair, "Gov. Lib"; the other fields are outside its frame |
| AssetForm.Form.ResetForm | screens/AssetFormScreen.tsx:187-202 | every entry field returns to its initial value; the known departments are kept |
| AssetForm.Form.HandleSubmit | screens/AssetFormScreen.tsx:130-185 | returns the guard's verdict on the current state; the form is reset exactly when the row was accepted and stored, and otherwise left as it was |
| AssetForm.Form.PickImage | screens/AssetFormScreen.tsx:95-108 | the new state is the old one with the captured picture appended as above |
| AssetForm.Form.OnDateChange | screens/AssetFormScreen.tsx:87-93 | a dismissed picker changes nothing; a picked date is stored and the depreciation effect runs on it (the picker's handler is at screens/AssetFormScreen.tsx:328-331) |
| AssetForm.Form.FetchDepartments | screens/AssetFormScreen.tsx:65-79 | without data nothing changes; with data only the known departments change, to the de-duplicated values |
| Login.MatchesEmailPatternIff | screens/LoginScreen.tsx:41 | the pattern matches exactly the strings without white space that have an '@' after the first character, followed at least two characters later by a '.' that is not the last character |
| Login.WhitespaceNeverMatches | screens/LoginScreen.tsx:41 | white space anywhere rules out a match |
| Login.EmailError | screens/LoginScreen.tsx:41 | an empty e-mail never shows the error; a non-empty one shows it exactly when it does not match |
| Login.EmailErrorExamples | screens/LoginScreen.tsx:41 | "a@b.co" passes, "a b@c.d" is flagged |
| Login.HandleLogin | screens/LoginScreen.tsx:24-39 | the validation alert comes exactly when a field is empty; otherwise the sign-in error is shown if there is one, else the dashboard opens |
| Login.EmptyFieldNeverSignsIn | screens/LoginScreen.tsx:25-27 | with an empty field no request is sent, whatever the backend would answer |
| Login.FlaggedEmailStillSent | screens/LoginScreen.tsx:24-41 | the guard ignores the e-mail check: a flagged address is still sent and can sign in |
| Lifespan.CalculateAssetLifeSpan | utils/timerUtils.ts:2-10 | never negative; positive exactly while the age is below the span, and then the span minus the age |
| Lifespan.BoughtThisYear | utils/timerUtils.ts:7-9 | bought this year: the span itself, or 0 for a span that is not positive |
| Lifespan.DefaultSpanExample | utils/timerUtils.ts:4 | with the default of 5 years, 3 years are left after 2 years and none after 5 |
| Lifespan.LifeSpanMonotone | utils/timerUtils.ts:6-9 | the result never increases with the current year, and never decreases with a later acquisition |
| Lifespan.LifeSpanBound | utils/timerUtils.ts:7-9 | for an asset already acquired, the result is at most the span (or 0) |

## Left out

- Backend calls: sign-in, the asset query, the insert, the storage upload and `getPublicUrl`. They are SDK I/O; their answers are parameters (`HandleLogin`'s `signInError`, `FetchDepartments`'s `data`, `HandleSubmit`'s `stored`).
- The photo upload in `handleSubmit`. It is I/O: the inserted row carries the local photo URIs (`imagesToUpload`), not the public URLs they become. The `user_id` column is left out for the same reason.
- Camera permission and capture. These are device effects; the camera's answer is the `Capture` parameter of `PickImage`.
- The `loading`, `showDatePicker` and `fundingMenuVisible` flags, the animated progress bar, navigation, styles and theme colours. They are presentation, not logic (the colours are modelled as `Green`/`Orange`/`Red`).
- The plain field setters of the form (`setStaffName` and so on), which only assign one field.
- `formatExactTime`, `toDateString` and `toISOString().split("T")`. These are `Intl` and string formatting by the JavaScript library.
- Parsing of date strings, and time zones. All times are UTC milliseconds, and a stored `YYYY-MM-DD` date is its UTC midnight. `setFullYear` works in local time in the app; the model uses UTC.
- `parseInt(qty)` and `parseFloat(unitCost)`: the row keeps the typed text. The unit cost on the detail card is an integer in the model.
- Floating point in the percentage. The model uses exact rational arithmetic, with `Math.round` as round-half-up; the binary rounding of `diffYears` is not modelled.
- `toLowerCase` beyond ASCII. Case folding is limited to the letters A–Z.
- The order of `Object.keys` over the folders. The folders are a map, so their display order is not modelled.
- Lifespan.CalculateAssetLifeSpan: works on integer years only; a fractional acquisition year, which JavaScript would accept, is not modelled.

## Findings

| source | as written | input that shows it | evidently intended | confidence | as-written member | corrected member |
|---|---|---|---|---|---|---|
| screens/AssetsListScreen.tsx:47-51 | folders are kept in a plain object `{}`, and a folder is created only when `!grouped[dept]` | an asset whose department is "toString" (or "constructor", "__proto__", "valueOf", ...): the lookup finds the inherited member, no array is created, and `push` throws a TypeError | every department gets its own folder | high (not executed) | AssetsList.GroupedAsWritten, AssetsList.InheritedNameBreaksGrouping | AssetsList.GroupAssetsByDepartment |
