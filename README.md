# EDISU news-page checker: a Dafny model

The EDISU checker watches one news page. Once an hour it does four things in turn:

1. It probes the network with a HEAD request to a well-known host.
2. It fetches the page.
3. It takes the text of the page's news region and computes its fingerprint. Lowercasing, deleting `d/m/y` dates and `h:mm` times, collapsing whitespace and trimming come first; the fingerprint is the SHA-256 of the result.
4. It compares that fingerprint with the one in its hash file. It then writes the hash file, alerts the user and appends one log line, depending on the outcome.

The model has five modules:

- `Text`: the Python string operations the code uses, over ASCII: `str.lower`, `str.strip`, `\d` and `\s`.
- `Regex`: the part of Python's `re` that `normalize_text` needs:
  - patterns built from literals and greedy bounded repetitions (`\d{m,n}`, `\s+`);
  - a backtracking matcher, proved sound and complete against a declarative language (`Spans`), and longest-match for delimited patterns (every literal lies outside the class of the repetition before it), which all three patterns are;
  - `re.sub` as a leftmost, non-overlapping, left-to-right scan.
- `Normalize`: `normalize_text` with the proved properties below. These include the fingerprint being insensitive to the width of one gap, and to one date or one time, provided the text before that date or time cannot run into it (see `## Left out`).
- `NormalizeCases`: concrete inputs. One is the sample headline `"news: site updated 12/1/24 09:30 extra   spaces"`, which normalises to `"news: site updated extra spaces"`. Another is a listing whose second item's date can change after an earlier date. The last, `"1/1/1:0011"`, shows that normalising twice differs from normalising once.
- `Checker`: the rest of the cycle:
  - the connectivity verdict of `check_connection`;
  - `check_site` as a pure step function over the hash file, with one lemma per branch;
  - lemmas over any series of cycles;
  - a `Monitor` class whose `Cycle` method updates the hash file, the alerts, the log, the fetch count and the scheduled delays exactly as the step function says.

What the code does differs from a natural reading of its purpose in one place. `normalize_text` is not idempotent. The model follows the code: `NormalizeCases.NotIdempotent` proves the counterexample, so no idempotence lemma is stated. The digits left behind when the time `1:00` is deleted from `1/1/1:0011` form the new date `1/1/11`, which a second pass deletes.

## Model

| member | source | states |
|---|---|---|
| Text.LowerChar | edisu_checker.py:54 | lowering one character yields no capital, maps each of `A`-`Z` to the letter 32 code points above it in `a`-`z`, fixes every other character and keeps digits, whitespace and ASCII as they are |
| Text.Lower | edisu_checker.py:54 | `text.lower()` keeps the length and lowers each position on its own |
| Text.StripLeading | edisu_checker.py:58 | the result is a suffix of the text, everything removed is whitespace, and the result does not start with whitespace |
| Text.StripTrailing | edisu_checker.py:58 | the result is a prefix of the text, everything removed is whitespace, and the result does not end with whitespace |
| Text.Strip | edisu_checker.py:58 | `strip()` returns a slice of the text with whitespace at neither end, and everything cut off on either side is whitespace |
| Text.StripFixed | edisu_checker.py:58 | a text with no whitespace at either end is left alone by `strip()` |
| Text.StripSpaceFront | edisu_checker.py:58 | a space in front does not change what `strip()` returns |
| Text.StripSpaceBack | edisu_checker.py:58 | a space at the back does not change what `strip()` returns |
| Text.LeadingAppend | edisu_checker.py:58 | `lstrip()` of a concatenation keeps the back part whole when something of the front part is left, and is `lstrip()` of the back part otherwise |
| Text.StripLeadingFixed | edisu_checker.py:58 | a text not starting with whitespace is left alone by `lstrip()` |
| Text.StripTrailingFixed | edisu_checker.py:58 | a text not ending with whitespace is left alone by `rstrip()` |
| Text.LowerFixed | edisu_checker.py:54 | a text without capitals is its own lower case |
| Text.LowerAppend | edisu_checker.py:54 | lowering distributes over concatenation |
| Text.LowerDigits | edisu_checker.py:54 | lowering neither creates nor removes digits |
| Regex.Run | edisu_checker.py:55-57 | the greedy phase of a repetition consumes only characters of its class, stays within the bound, and stops only at the end, at a character outside the class or at the bound |
| Regex.RunIsLongest | edisu_checker.py:55-57 | no admissible run of the class is longer than the greedy count |
| Regex.MatchAt | edisu_checker.py:55-57 | an anchored match ends inside the text and consumes at least the pattern's minimum length |
| Regex.Backtrack | edisu_checker.py:55-57 | the back-off of a greedy `{m,n}` or `+`: a match found after giving back characters ends inside the text and consumes at least the minimum length; that it is in the language is `Regex.MatchSound` |
| Regex.Sub | edisu_checker.py:55-57 | `re.sub` as a leftmost, non-overlapping scan; it has no contract of its own: its properties are `Regex.SubChars`, `Regex.SubShrinks`, `Regex.SubNoOp`, `Regex.SubShort`, `Regex.SubSkip`, `Regex.SubKeep`, `Regex.SubSplit` and `Regex.SubFront` |
| Regex.MatchSound | edisu_checker.py:55-57 | every match the backtracking engine reports is in the pattern's language |
| Regex.MatchComplete | edisu_checker.py:55-57 | when some prefix at a position is in the language, the engine finds a match there |
| Regex.MatchLongest | edisu_checker.py:55-57 | for the three patterns' shape (each literal outside the class before it), the engine's match is the longest one in the language |
| Regex.SubChars | edisu_checker.py:55-57 | `re.sub` emits only characters of its subject or of its replacement |
| Regex.SubShrinks | edisu_checker.py:55-57 | a replacement no longer than the shortest match never lengthens the text |
| Regex.SubNoOp | edisu_checker.py:55-57 | a text with no character of the pattern's mandatory leading class is returned unchanged |
| Regex.SubShort | edisu_checker.py:55-57 | a text shorter than any match is returned unchanged |
| Regex.SubSkip | edisu_checker.py:55-57 | a prefix free of the leading class is copied through, whatever follows it |
| Regex.SubKeep | edisu_checker.py:55-57 | a prefix at none of whose positions a match starts is copied through, whatever follows it |
| Regex.MatchLocal | edisu_checker.py:55-57 | a match starting before a character the pattern cannot consume ends before it and does not depend on what follows |
| Regex.MatchFront | edisu_checker.py:55-57 | a character the pattern cannot consume bounds every match before it, as the end of the text would |
| Regex.SubSplit | edisu_checker.py:55-57 | `re.sub` works separately on the two sides of a point after a character the pattern cannot consume |
| Regex.SubFront | edisu_checker.py:55-57 | `re.sub` works separately on the two sides of a point before a character the pattern cannot consume |
| Regex.SpansChars | edisu_checker.py:55-57 | every character of a match can be consumed by some item of the pattern |
| Regex.SpansHasLit | edisu_checker.py:55-57 | every match contains each literal of its pattern |
| Normalize.PatternFacts | edisu_checker.py:55-57 | for the constants `DatePattern` (`\d{1,2}/\d{1,2}/\d{2,4}`), `TimePattern` (`\d{1,2}:\d{2}`) and `Whitespace` (`\s+`): a date is at least 6 characters, a time at least 4 and a whitespace run at least 1, and all three patterns are delimited |
| Normalize.PatternAlphabet | edisu_checker.py:55-56 | a date is made only of digits and slashes, a time only of digits and colons |
| Normalize.Collapse | edisu_checker.py:57 | `re.sub(r"\s+", " ", text)`; it has no contract of its own: its properties are `Normalize.CollapseStep`, `Normalize.CollapseIsCollapsed`, `Normalize.CollapseFixedPoint` and `Normalize.CollapseFacts` |
| Normalize.CollapseStep | edisu_checker.py:57 | `re.sub(r"\s+", " ")` keeps a non-space character and turns a maximal whitespace run into one space |
| Normalize.CollapseIsCollapsed | edisu_checker.py:57 | after collapsing, every whitespace character is a single plain space |
| Normalize.CollapseFixedPoint | edisu_checker.py:57 | collapsing leaves a text unchanged exactly when it is already collapsed (both directions) |
| Normalize.CollapseFacts | edisu_checker.py:57 | collapsing never lengthens the text and emits only its characters or a space |
| Normalize.Undated | edisu_checker.py:55-56 | the date deletion followed by the time deletion; it has no contract of its own: its properties are `Normalize.UndatedFacts`, `Normalize.UndatedSplit`, `Normalize.DateDeleted` and `Normalize.TimeDeleted` |
| Normalize.UndatedFacts | edisu_checker.py:55-56 | deleting dates and times never lengthens the text, emits only its characters, and leaves digit-free text alone |
| Normalize.StaysLower | edisu_checker.py:55-58 | the last three steps introduce no capital |
| Normalize.NormalizeText | edisu_checker.py:53-58 | the normal form is no longer than the input, has no whitespace at either end, is single-spaced and has no capital; for digit-free input it is the input lowered, collapsed and stripped |
| Normalize.BlankIsEmpty | edisu_checker.py:53-58 | text made only of whitespace, including no text at all, normalises to the empty string |
| Normalize.DatesSplit | edisu_checker.py:55 | the date deletion works on each side of a character that is neither a digit nor a slash, and keeps that character |
| Normalize.TimesSplit | edisu_checker.py:56 | the time deletion works on each side of a character that is neither a digit nor a colon |
| Normalize.UndatedSplit | edisu_checker.py:55-56 | both deletions work on each side of a character that is not a digit, a slash or a colon |
| Normalize.DateDeleted | edisu_checker.py:55-56 | a whole date is deleted when the text before it has no digits or ends in neither a digit nor a slash, and a character the date cannot absorb follows it; the rest of the text is then treated as if the date were not there |
| Normalize.TimeDeleted | edisu_checker.py:55-56 | a whole time survives the date deletion and is then deleted, when the text before it has no digits or ends in neither a digit, a slash nor a colon, and a character neither pattern can absorb follows it |
| Normalize.DateIgnored | edisu_checker.py:53-58 | texts that differ only in one date normalise alike, when the text before the date has no digits or ends in neither a digit nor a slash, and the date is not followed by a digit or a slash; this covers every dated item of a listing, not only the first |
| Normalize.TimeIgnored | edisu_checker.py:53-58 | texts that differ only in one time normalise alike, when the text before the time has no digits or ends in neither a digit, a slash nor a colon, and the time is not followed by a digit, a slash or a colon |
| Normalize.UndatedAroundGap | edisu_checker.py:55-56 | the date and time deletions keep a gap of whitespace and work on its two sides on their own |
| Normalize.CollapseAroundGap | edisu_checker.py:57 | a gap and the whitespace around it collapse into one space between the two sides' collapsed texts |
| Normalize.SpacingIgnored | edisu_checker.py:53-58 | texts that differ only in how much whitespace one gap holds normalise alike |
| Normalize.CollapseSpaceFront | edisu_checker.py:57-58 | a space put in front of a text does not change the text collapsed and stripped |
| Normalize.CollapseSpaceBack | edisu_checker.py:57-58 | a space put at the back of a text does not change the text collapsed and stripped |
| Normalize.SpaceFrontIgnored | edisu_checker.py:53-58 | a text with one space in front normalises like the text |
| Normalize.SpaceBackIgnored | edisu_checker.py:53-58 | a text with one space at the back normalises like the text |
| Normalize.PaddingFront | edisu_checker.py:53-58 | a text with any whitespace in front, none included, normalises like the text |
| Normalize.PaddingBack | edisu_checker.py:53-58 | a text with any whitespace at the back, none included, normalises like the text |
| Normalize.PaddingIgnored | edisu_checker.py:53-58 | a text with any whitespace at either end, none included, normalises like the text |
| NormalizeCases.DatedHeadline | edisu_checker.py:53-58 | a headline followed by a date, a time and two words with any gap between them normalises to the headline and the two words, single-spaced |
| NormalizeCases.SampleHeadline | edisu_checker.py:53-58 | `"news: site updated 12/1/24 09:30 extra   spaces"` normalises to `"news: site updated extra spaces"` |
| NormalizeCases.SecondDateIgnored | edisu_checker.py:53-58 | in the listing `"menu 1/2/33 open " + d + " exams"`, changing the second date `d` to any other date leaves the normal form as it is |
| NormalizeCases.NotIdempotent | edisu_checker.py:53-58 | `"1/1/1:0011"` normalises to `"1/1/11"`, which normalises to `""`, so normalising twice differs from normalising once |
| Checker.NewsText | edisu_checker.py:61-69 | the news region's text, or the empty text when the page has no news region; it has no contract of its own: its properties are `Checker.MissingRegionLikeBlank`, `Checker.RedatedPageSameHash`, `Checker.RetimedPageSameHash` and `Checker.RespacedPageSameHash` |
| Checker.PageHash | edisu_checker.py:38-41 | the digest of the normalised news text; it has no contract of its own: its properties are `Checker.MissingRegionLikeBlank`, `Checker.RedatedPageSameHash`, `Checker.RetimedPageSameHash` and `Checker.RespacedPageSameHash` |
| Checker.MissingRegionLikeBlank | edisu_checker.py:38-41 | a page without the news region hashes like one whose region holds only whitespace |
| Checker.RedatedPageSameHash | edisu_checker.py:38-41 | pages whose news differs only in one date have the same fingerprint, under the conditions of `Normalize.DateIgnored` |
| Checker.RetimedPageSameHash | edisu_checker.py:38-41 | pages whose news differs only in one time have the same fingerprint, under the conditions of `Normalize.TimeIgnored` |
| Checker.RespacedPageSameHash | edisu_checker.py:38-41 | pages whose news differs only in one gap's width have the same fingerprint |
| Checker.Reachable | edisu_checker.py:45-50 | the network counts as up exactly when a response arrived with a status below 500; a failed request means down |
| Checker.Step | edisu_checker.py:118-146 | the page is fetched exactly when the network is up; the hash file changes only to the freshly fetched fingerprint; an alert is raised exactly when the fetch failed or a stored fingerprint differs from the new one |
| Checker.UnreachableCycle | edisu_checker.py:145-146 | offline: nothing is fetched, the hash file is untouched, no alert, and the skip is logged |
| Checker.FirstRunCycle | edisu_checker.py:136-139 | with no hash file, the fingerprint is saved and logged, with no alert |
| Checker.NoChangeCycle | edisu_checker.py:134-135 | with an unchanged fingerprint, the hash file is untouched, no alert, and "No change detected" is logged |
| Checker.ChangeCycle | edisu_checker.py:127-132 | with a changed fingerprint, it is saved, one change alert is raised, and the new fingerprint is logged |
| Checker.ErrorCycle | edisu_checker.py:141-143 | when the fetch raises, the hash file is untouched, and the alert and the log line both carry the error text |
| Checker.DigestStripped | edisu_checker.py:123-125 | a hex digest read back with `strip()` is the digest that was written |
| Checker.TrackStep | edisu_checker.py:121-139 | one cycle stores the fingerprint it fetched, or else leaves the hash file alone |
| Checker.FileTracksLastFingerprint | edisu_checker.py:121-146 | after any series of cycles, the hash file holds the fingerprint of the last successful fetch, or is as it was when there was none |
| Checker.StableStep | edisu_checker.py:121-139 | a cycle that fetches the stored fingerprint raises no alert and keeps it stored |
| Checker.StablePageNeverAlerts | edisu_checker.py:121-146 | a page whose fingerprint never changes never raises an alert, with or without a saved baseline, as long as no fetch fails |
| Checker.Monitor.constructor | edisu_checker.py:154-156 | at start-up nothing has been alerted, logged or fetched, and the first check is scheduled with delay 0 |
| Checker.Monitor.Alert | edisu_checker.py:94-109 | the message is added to what the user has been shown |
| Checker.Monitor.Info | edisu_checker.py:112-115 | the message is appended to the log |
| Checker.Monitor.Cycle | edisu_checker.py:118-149 | the hash file, alerts, log and fetch count change exactly as `Step` says, and the next check is scheduled `CHECK_INTERVAL` (3600 s) later whatever the outcome |

## Left out

- HTTP: `requests.head` and `requests.get` are not modelled, nor the request headers, the timeouts or the text of `raise_for_status`. The probe's result is a `Probe` input and the fetch's result is a `Fetch` input: a fingerprint or an error text.
- HTML parsing: BeautifulSoup and the `view-content` selector are not modelled. The news region's text, as `get_text(separator=" ", strip=True)` gives it, or its absence, is an input to `Checker.NewsText`.
- SHA-256 and the UTF-8 encoding are not modelled: `Checker.PageHash` takes the digest function as a parameter. The lemmas over series of cycles require fingerprints of 64 lower-case hex digits, which is what `hexdigest()` returns.
- `Checker.Step`: the code's `try` catches every exception, including ones raised by reading or writing the hash file, by `alert_user` or by `info`. The model only treats the fetch's own failure as the error branch.
- `Checker.Reachable`: exceptions from `requests.head` other than `RequestException` would escape `check_connection`. The model does not have them.
- The toast notification and the beep in `alert_user`: `Monitor.Alert` only records the message, because they are Windows user-interface effects.
- The log file, `print` and `time.ctime()`: `Monitor.Info` records the message without the time stamp, because both are I/O and the clock.
- The `sched` event loop: `Monitor` records the delays handed to `sc.enter` and `scheduler.enter`, and a caller runs `Cycle` once per check. The passing of time and `scheduler.run()` are not modelled.
- Text outside ASCII: `Normalize.NormalizeText` requires ASCII input. Python's `str.lower`, `\d` and `\s` follow Unicode, and the model does not.
- `Regex.Sub`: only patterns that cannot match the empty string are modelled. Python's rule for empty matches is never needed by the three patterns of `normalize_text`.
- The commented-out `edisu_check` function (edisu_checker.py:72-91) is not code and is not modelled.
- `Normalize.DateIgnored`: proved when the text before the date has no digits, or ends in neither a digit nor `/`, and the character after the date is neither a digit nor `/`. These conditions are sufficient; the ban on `/` after the date is not shown to be needed. The others are needed, because a date can join its neighbours. Followed by `4`, the date `1/2/33` is deleted as the longer date `1/2/334`, taking the `4` with it, while `1/2/3333` leaves the `4`. After `x1`, the date `2/3/44` is deleted as the longer date `12/3/44`, taking the `1` with it. After `1/2/`, the date `33/4/55` gives its `33` to the date `1/2/33`.
- `Normalize.TimeIgnored`: proved when the text before the time has no digits, or ends in neither a digit, `/` nor `:`, and the character after it is not a digit, `/` or `:`. These conditions are sufficient; the ban on `/` and `:` after the time is not shown to be needed. The conditions on the text before are needed. After `1:`, the time `00:00` turns into the time `1:00` followed by `:00`. After `1/2/`, the time `33:00` gives its `33` to the date `1/2/33`.
- `Checker.RedatedPageSameHash`: holds under the same conditions as `Normalize.DateIgnored`, which it applies.
- `Checker.RetimedPageSameHash`: holds under the same conditions as `Normalize.TimeIgnored`, which it applies.
- `Normalize.SpacingIgnored`: covers a change in one gap between two parts of the text. Several gaps follow by applying it once per gap. Whitespace at either end is covered by `Normalize.PaddingIgnored`.
- No idempotence lemma is stated, because `normalize_text` is not idempotent (`NormalizeCases.NotIdempotent`).
