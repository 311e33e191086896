# TruckSimFM services in Dafny

This project models the logic of the TruckSimFM radio app's service layer and proves properties about it:

- **Now-playing text** (`frontend/services/radioService.ts`):
  - `smartTitleCase` re-cases the words of a song line. A small list of words is kept lower-case, and a letter after `(` or `[` is capitalised.
  - `parseSongString` splits `"Artist - Title"` at the first separator that works, trying five separators in a fixed order.
  - `getCurrentSong` maps the backend's current-song reply onto a `CurrentSong`. Any failure gives the station fallback.
- **Playlist reader** (`frontend/services/plsParser.ts`): `parsePlsPlaylist` keeps the value of every `File…=` line of a `.pls` text. It decodes each value and pushes it in line order. The first value that fails to decode makes the whole call fail.
- **Recently played** (`frontend/services/recentlyPlayedService.ts`):
  - The response check of `getRecentlyPlayed`.
  - The relative label of `formatPlayedTime`: "Just now", "N min ago", "N hours ago", "N days ago".
- **Live presenter** (`frontend/services/presenterService.ts`): the `AUTO_DJ` presenter, and the mapping of the `/api/live-presenter` reply with JavaScript's `||` defaults.
- **Spotify client** (`backend/spotify_service.py`):
  - The token cache: two fields updated in place. A cached token is reused until its expiry. Every successful refresh stores the new token with an expiry 300 seconds short of its lifetime. A refresh that raises while computing the expiry, because `expires_in` is not a number or the expiry overflows `datetime`, keeps the new token with the old expiry.
  - `search_track`: the guard against empty input, the query string, and how the first hit becomes the result dictionary. The dictionary has album art in three sizes and the artist names joined with `", "`.

The modules are:

| module | contents |
|---|---|
| `Wrappers` | `Option` and `Result` |
| `Text` | JavaScript `trim` (its whitespace set written out), ASCII `toLowerCase`, `split` on one character, `join`, `indexOf`, `startsWith`, decimal rendering of numbers |
| `RadioService` | the three functions of `radioService.ts` |
| `PlsParser` | `parsePlsPlaylist` |
| `RecentlyPlayed` | `getRecentlyPlayed` and `formatPlayedTime` |
| `PresenterService` | `AUTO_DJ` and `getLivePresenter` |
| `Spotify` | `SpotifyService` and its result shaping |

HTTP calls, clocks and `decodeURIComponent` are inputs rather than calls:

- A reply is a datatype that lists what the code distinguishes. For example, a current-song reply is an error, or a body with its `success` flag and its `data` field.
- The played-time label takes the elapsed difference `now − played` in milliseconds, or NaN when the timestamp does not parse.
- The token cache takes `now` as whole seconds counted from 0001-01-01 00:00:00, the earliest `datetime`. An expiry outside `datetime`'s range, which ends with the year 9999, raises `OverflowError`.
- `decodeURIComponent` is a parameter `string -> Option<string>`. `None` stands for the `URIError` it throws.

## Model

| member | source | states |
|---|---|---|
| RadioService.TitleWord | frontend/services/radioService.ts:21-39 | Defines the re-casing of one word: a preserved word is lower-cased, a word with `(` or `[` is split and each part capitalised, and any other word is capitalised. It has no ensures of its own: TitleWordSpec, TitleWordRecases and DJBecomesDj carry its contract. |
| RadioService.TitleWordSpec | frontend/services/radioService.ts:21-39 | A word whose lower-case form is preserved comes out lower-cased. Every other word comes out with its first character, and each character right after `(` or `[`, upper-cased, and all other characters lower-cased. |
| RadioService.PreservedWords | frontend/services/radioService.ts:17-27 | A word is kept lower-case exactly when its lower-case form is one of ft, ft., feat, feat., vs, vs., x, x. The entries `DJ` and `MC` can never match a lower-cased word. |
| RadioService.DJBecomesDj | frontend/services/radioService.ts:17-38 | `DJ` is not preserved: it comes out as `Dj`. |
| RadioService.BracketParts | frontend/services/radioService.ts:31 | The split on `(`/`[` with captured separators alternates segment, bracket, segment. There is an odd number of parts, segments contain no bracket, and each bracket is a one-character part. |
| RadioService.BracketPartsConcat | frontend/services/radioService.ts:31-34 | Joining the bracket parts gives back the word. |
| RadioService.BracketCaseFrom | frontend/services/radioService.ts:30-35 | Invariant of the bracket case: capitalising every part after the first equals the per-character recasing. |
| RadioService.CapitalizeIsRecased | frontend/services/radioService.ts:37-38 | On a word without brackets, plain capitalisation is the per-character recasing. |
| RadioService.TitleWordRecases | frontend/services/radioService.ts:21-39 | Re-casing a word changes only the case of its letters. |
| RadioService.SmartTitleCase | frontend/services/radioService.ts:15-41 | Defines `smartTitleCase`: split on spaces, re-case each word, join with spaces. It has no ensures of its own: SmartTitleCaseRecases, SmartTitleCaseWords and SmartTitleCaseKeepsWhitespace carry its contract. |
| RadioService.SmartTitleCaseRecases | frontend/services/radioService.ts:15-41 | `smartTitleCase` keeps the length, and the result lower-cased equals the input lower-cased. |
| RadioService.SmartTitleCaseWords | frontend/services/radioService.ts:19-40 | Splitting the result on spaces gives the input's words, each title-cased. The number of words, empty ones included, is kept. |
| RadioService.SmartTitleCaseKeepsWhitespace | frontend/services/radioService.ts:15-41 | Every position holds whitespace after title casing exactly when it did before. |
| RadioService.PartsAt | frontend/services/radioService.ts:53-60 | The artist and title cut at a separator are the trimmed text before and after its first occurrence, with only letter case changed. |
| RadioService.PartsAtTrimmed | frontend/services/radioService.ts:53-60 | Both parts of a qualifying cut are non-empty and neither starts or ends with whitespace. |
| RadioService.TrySeparator | frontend/services/radioService.ts:51-62 | Defines one loop round: the first occurrence of the separator, the `index > 0` test, the trimmed sides and their truthiness test, and the title-cased cut. It has no ensures of its own: TrySeparatorSpec, PartsAt and PartsAtTrimmed carry its contract. |
| RadioService.TrySeparatorSpec | frontend/services/radioService.ts:50-62 | One loop round yields the cut exactly when the separator qualifies. It qualifies when its first occurrence is past position 0 and both trimmed sides are non-blank. |
| RadioService.FirstSuccessIsFirst | frontend/services/radioService.ts:50-65 | Trying in order returns the outcome of the first element that succeeds. |
| RadioService.FirstSuccessNone | frontend/services/radioService.ts:50-65 | Trying in order fails exactly when every element fails. |
| RadioService.FirstSuccessFrom | frontend/services/radioService.ts:50-65 | A successful search returns the outcome of one of the elements. |
| RadioService.TryFirstQualifying | frontend/services/radioService.ts:50-63 | Over any separator list, the first qualifying separator determines the result. |
| RadioService.TryNone | frontend/services/radioService.ts:50-65 | Over any separator list, the search gives null exactly when no separator qualifies. |
| RadioService.ParseSongString | frontend/services/radioService.ts:46-66 | Defines `parseSongString`: the five separators tried in order, the first successful round returned, null otherwise. It has no ensures of its own: ParseSongStringFirstMatch, ParseSongStringNone, LeadingSeparatorSkipped and ParsedSidesTrimmed carry its contract. |
| RadioService.ParseSongStringFirstMatch | frontend/services/radioService.ts:46-66 | When separator k is the first that qualifies, the result is the cut at k's first occurrence. Later separators in the text stay in the title. |
| RadioService.ParseSongStringNone | frontend/services/radioService.ts:46-66 | `parseSongString` gives null exactly when none of the five separators qualifies. |
| RadioService.FirstQualifyingExists | frontend/services/radioService.ts:50-63 | If any separator qualifies, a first qualifying one exists. |
| RadioService.LeadingSeparatorSkipped | frontend/services/radioService.ts:51-52 | A ` - ` at position 0 is not used. With no other separator in the text the result is null. |
| RadioService.ParsedSidesTrimmed | frontend/services/radioService.ts:53-61 | A parsed artist and title are non-empty and carry no surrounding whitespace. |
| RadioService.GetCurrentSong | frontend/services/radioService.ts:71-129 | Anything other than a successful reply with string data gives `TruckSimFM` / `Live Radio` without raw data. With string data, the raw text is kept, the parsed artist and title are used when the trimmed text parses, and otherwise the title is the title-cased text and the artist is `Unknown Artist`. |
| RadioService.RawDataIffText | frontend/services/radioService.ts:96-127 | Raw data is reported exactly when the reply carried song text. Otherwise the result is the fallback. |
| Text.Trim | frontend/services/radioService.ts:89 | The trimmed text is no longer than the input and starts and ends with non-whitespace. It is empty exactly when the input is all whitespace. |
| Text.TrimStart | frontend/services/radioService.ts:53 | Removes exactly the longest whitespace prefix. |
| Text.TrimEnd | frontend/services/radioService.ts:54 | Removes exactly the longest whitespace suffix. |
| Text.TrimDropsCarriageReturn | frontend/services/plsParser.ts:10-13 | A trailing `\r` does not change the trimmed line. |
| Text.Split | frontend/services/plsParser.ts:10 | Splitting gives at least one piece, and no piece contains the separator. |
| Text.JoinSplit | frontend/services/plsParser.ts:16-18 | Joining the pieces of a split with the separator gives back the text. |
| Text.SplitJoin | frontend/services/radioService.ts:19-40 | Splitting a join of separator-free pieces gives back the pieces. |
| Text.SplitAfterFirst | frontend/services/plsParser.ts:16-18 | With `=` in the text, rejoining the pieces after the first gives the text after the first `=`. |
| Text.IndexOf | frontend/services/radioService.ts:51 | `indexOf` returns a position where the pattern occurs and before which it does not, or None when it occurs nowhere. |
| Text.IndexOfAbsentChar | frontend/services/plsParser.ts:16-17 | A character that does not occur is not found. |
| Text.LowerHasNoUpper | frontend/services/radioService.ts:22 | A lower-cased word has no upper-case ASCII letter. |
| Text.NatToString | frontend/services/recentlyPlayedService.ts:76 | The decimal rendering is a non-empty string of digits. It starts with `0` only for zero. |
| Text.NatToStringRoundTrip | frontend/services/recentlyPlayedService.ts:76 | Reading the rendered digits back gives the number. |
| Text.NatToStringInjective | frontend/services/recentlyPlayedService.ts:76-84 | Different numbers are rendered differently. |
| Text.JoinLength | backend/spotify_service.py:85 | A join is as long as its pieces plus one separator between each pair. |
| PlsParser.LineValue | frontend/services/plsParser.ts:13-23 | Defines the value one line contributes: trim, the `File` prefix test, the split on `=` with the first piece dropped, the trim, and the non-empty test. It has no ensures of its own: LineValueSpec and LineValueIgnoresCarriageReturn carry its contract. |
| PlsParser.LineValueSpec | frontend/services/plsParser.ts:13-23 | A line contributes a value exactly when, trimmed, it starts with `File`, contains `=`, and the trimmed text after the first `=` is non-empty. That text, later `=` included, is the value. |
| PlsParser.LineValueIgnoresCarriageReturn | frontend/services/plsParser.ts:10-13 | A CRLF line contributes the same value as the line without `\r`. |
| PlsParser.Collect | frontend/services/plsParser.ts:12-24 | At most one value is collected per line. |
| PlsParser.CollectAppend | frontend/services/plsParser.ts:12-24 | The values of concatenated lines are the values of the first part followed by those of the second: line order is kept. |
| PlsParser.CollectFrom | frontend/services/plsParser.ts:12-24 | Every collected value is the value of some line. |
| PlsParser.DecodeAll | frontend/services/plsParser.ts:20 | Defines the decoding of the collected values in order, failing at the first value `decodeURIComponent` rejects. It has no ensures of its own: DecodeAllSpec, DecodeAllSucceedsIff and DecodeAllFailureSticks carry its contract. |
| PlsParser.DecodeAllSpec | frontend/services/plsParser.ts:20 | Success gives one decoded URL per value, each the decoding of the value at the same position. Failure names a value in the list that does not decode. |
| PlsParser.DecodeAllSucceedsIff | frontend/services/plsParser.ts:20-31 | Decoding succeeds exactly when every value decodes. |
| PlsParser.DecodeAllFailureSticks | frontend/services/plsParser.ts:20-31 | After the first rejected value, later lines do not change the outcome. |
| PlsParser.FailureAtSticks | frontend/services/plsParser.ts:12-31 | A decode failure at a line is the outcome of the whole text. |
| PlsParser.CollectDecodeStep | frontend/services/plsParser.ts:12-24 | One line's effect on the pushed URLs: nothing, one more decoded URL, or the error. |
| PlsParser.DecodeEach | frontend/services/plsParser.ts:12-24 | The `forEach` loop with its `urls` array: the result is the in-order decoding of the collected values, or the first decode error. |
| PlsParser.ParsePlsPlaylist | frontend/services/plsParser.ts:4-32 | A failed fetch raises. Otherwise the result is the decoding of the values of the lines of the text split on `\n`. |
| PlsParser.DecodedFromSources | frontend/services/plsParser.ts:9-27 | A successful parse returns at most one URL per line, each the decoding of some line's value. |
| RecentlyPlayed.GetRecentlyPlayed | frontend/services/recentlyPlayedService.ts:18-39 | The payload's tracks, unchanged, exactly when the reply succeeded and `data` is an array. The empty list otherwise, errors included. |
| RecentlyPlayed.WholeMinutes | frontend/services/recentlyPlayedService.ts:72 | The minutes are the floor of the milliseconds over 60000. |
| RecentlyPlayed.FormatPlayedTime | frontend/services/recentlyPlayedService.ts:68-85 | An unparsable timestamp gives `NaN days ago`. Less than a minute, including a timestamp in the future, gives `Just now`. |
| RecentlyPlayed.FormatMinutes | frontend/services/recentlyPlayedService.ts:74-84 | Defines the early returns of the label on whole minutes, with hours and days floored from them. It has no ensures of its own: FormatPlayedTimeBuckets and ShownCountIsWholeUnits carry its contract. |
| RecentlyPlayed.FormatPlayedTimeBuckets | frontend/services/recentlyPlayedService.ts:71-85 | The label for each range of elapsed milliseconds: `Just now` under 1 minute; `1 min ago`; `N min ago` for 2–59 minutes; `1 hour ago` for 60–119 minutes; `N hours ago` for 2–23 hours; `1 day ago`; `N days ago` from 2 days, with N the whole units elapsed. |
| RecentlyPlayed.HoursFromMillis | frontend/services/recentlyPlayedService.ts:72-78 | Flooring to minutes and then to hours is flooring to hours. |
| RecentlyPlayed.DaysFromMinutes | frontend/services/recentlyPlayedService.ts:78-82 | Flooring minutes to hours and then to days is flooring to days. |
| RecentlyPlayed.DaysFromMillis | frontend/services/recentlyPlayedService.ts:72-82 | Flooring milliseconds to minutes and then to days is flooring to days. |
| RecentlyPlayed.ShownCountIsWholeUnits | frontend/services/recentlyPlayedService.ts:74-84 | The number printed in a minutes, hours or days label, read back, is the count of whole units elapsed. |
| RecentlyPlayed.MinutesShown | frontend/services/recentlyPlayedService.ts:75-76 | `N min ago` means exactly N elapsed minutes, with 1 ≤ N < 60. |
| RecentlyPlayed.HoursShown | frontend/services/recentlyPlayedService.ts:78-80 | `N hours ago` means 2 ≤ N < 24 and between N and N+1 hours elapsed. |
| RecentlyPlayed.DaysShown | frontend/services/recentlyPlayedService.ts:82-84 | `N days ago` means N ≥ 2 and between N and N+1 days elapsed. |
| PresenterService.OrElse | frontend/services/presenterService.ts:43-46 | The OR-default of a string member gives the string when it is non-empty, and the fallback otherwise. |
| PresenterService.ShowNameOf | frontend/services/presenterService.ts:45 | The show name is never empty. It is the record's show name when truthy; else `Auto DJ` for an auto-DJ record; else `Live with ` and the raw name as the template literal prints it. |
| PresenterService.GetLivePresenter | frontend/services/presenterService.ts:28-58 | Anything short of a successful reply with data is exactly `AUTO_DJ`. Every result has a non-empty name and show name and no end time. It is flagged auto-DJ exactly when it is the fallback or the record says `true`. |
| PresenterService.MapPresenter | frontend/services/presenterService.ts:42-48 | Defines the object literal built from a reply record with the OR defaults of JavaScript. It has no ensures of its own: GetLivePresenter, MapRecordOf, MapPresenterStable and ShowNameUsesRawName carry its contract. |
| PresenterService.MapRecordOf | frontend/services/presenterService.ts:42-48 | Mapping the backend record of a presenter gives that presenter back: the defaults never override a present value. |
| PresenterService.MapPresenterStable | frontend/services/presenterService.ts:42-48 | Every mapped presenter is presentable, and describing it and mapping again changes nothing. |
| PresenterService.AutoDjRecordMatchesFallback | frontend/services/presenterService.ts:6-12 | A backend reporting the auto-DJ itself yields exactly the fallback `AUTO_DJ`. |
| PresenterService.ShowNameUsesRawName | frontend/services/presenterService.ts:43-45 | With no name, the presenter is called `DJ Cruise Control`, but the show name reads `Live with undefined`, `Live with null` or `Live with `. |
| Spotify.TokenStep | backend/spotify_service.py:16-46 | Defines one call of `_get_access_token` on the cached fields: reuse, a failed request, a missing `access_token`, a lifetime that is not a number, an expiry out of `datetime` range, or a refresh. It has no ensures of its own: ReuseIffReusable, RefreshSetsExpiry, FailureLeavesCache, FreshTokenReused and HugeLifetimeOverflows carry its contract, and SpotifyService.GetAccessToken is proved equal to it. |
| Spotify.ReuseIffReusable | backend/spotify_service.py:19-21 | The cached token is returned without asking the endpoint exactly when it is non-empty, an expiry is set and `now` is before it. |
| Spotify.RefreshSetsExpiry | backend/spotify_service.py:36-39 | A refresh stores the token and the expiry `now + expires_in - 300`, with `expires_in` defaulting to 3600, when that expiry is a `datetime`. Otherwise the token is stored, the old expiry stays, and the call raises `OverflowError`. |
| Spotify.HugeLifetimeOverflows | backend/spotify_service.py:36-39 | An `expires_in` of 10^12 seconds overflows from every clock value: the token is stored and the call raises. |
| Spotify.FailureLeavesCache | backend/spotify_service.py:31-46 | A failed request or a reply without `access_token` raises and leaves both fields unchanged. |
| Spotify.EmptyCacheNotReusable | backend/spotify_service.py:13-21 | A fresh client always asks for a token. |
| Spotify.FreshTokenReused | backend/spotify_service.py:19-39 | A token obtained with an in-range expiry is returned again by every later call before `now + lifetime - 300`, whatever the endpoint says, and from then on is not reusable. When the expiry overflows, the call fails, and the stored token is reused exactly while the clock is before the expiry left over from earlier. |
| Spotify.SpotifyService.constructor | backend/spotify_service.py:10-14 | A new service has no token and no expiry. |
| Spotify.SpotifyService.GetAccessToken | backend/spotify_service.py:16-46 | The new fields and the result are those of one `TokenStep` from the old fields: reuse, refresh, or raise. A raise after the token is stored, for an `expires_in` that is not a number or an expiry that overflows, keeps the new token and the old expiry. |
| Spotify.SpotifyService.SearchTrack | backend/spotify_service.py:48-101 | An empty artist or title gives None and leaves the cache alone. Otherwise the cache is updated by the token step, a token failure (an expiry overflow included) gives None, and the search reply for `artist:… track:…` is shaped by `SearchOutcome`. |
| Spotify.Query | backend/spotify_service.py:58 | The query is `artist:`, the artist, ` track:`, the title. |
| Spotify.ArtistNames | backend/spotify_service.py:85 | The names are collected in order. The collection fails exactly when some entry has no usable name. |
| Spotify.ShapeTrack | backend/spotify_service.py:76-97 | A result is built exactly when every image read has a `url` and every artist has a name. Otherwise the raised error gives None. |
| Spotify.ImageSelection | backend/spotify_service.py:80-89 | Full-size art is the first image and small art the last. Medium art is the second image, or the first when there is only one. With no images all three are None. |
| Spotify.ArtistJoined | backend/spotify_service.py:85 | The artist field is the names joined with `, ` in order. Its length is the names' lengths plus two per gap. |
| Spotify.SearchOutcome | backend/spotify_service.py:71-76 | A failed search or an empty track list gives None. Otherwise the result is the shaped first track. |

## Left out

- Schedule-based presenter detection is not modelled. The doc comment at `frontend/services/presenterService.ts:26` mentions it as a fallback, but the code never does it: any failure returns `AUTO_DJ`. The model follows the code.
- `likeSong` (`frontend/services/recentlyPlayedService.ts:44-63`) is not modelled. It passes a POST reply through, with no logic beyond the success check.
- `backend/server.py`, the track-player and playback services, the app layout, the build-time patch scripts, the colour constants and the smoke tests are not part of this model. They are I/O wiring or constants.
- Logging, the HTTP calls and their timeouts, and the `limit` parameter of `getRecentlyPlayed` are not modelled. The reply is an input, so the limit sent to the backend has no effect on the model.
- Text.Lower: letter case is ASCII only. JavaScript's full Unicode case mapping is not modelled, including mappings that change length, such as `İ` (U+0130) lower-casing to two code points. Text.UpperChar is ASCII only too, so `ß` does not upper-case to `SS`.
- Strings are sequences of Unicode scalar values, not UTF-16 code units. `charAt(0)` on a character outside the Basic Multilingual Plane is not modelled.
- RecentlyPlayed.FormatPlayedTime takes the millisecond difference as an integer or NaN. The same holds for the rest of the JavaScript `Number` behaviour: fractional values, infinities and precision loss beyond 2^53 are not modelled.
- Spotify.SpotifyService.GetAccessToken: both `datetime.now()` calls take the same `now` value, and time is in whole seconds rather than microseconds.
- Spotify.TokenStep: an `access_token` that is present but `null` or not a string is not modelled. The reply holds a string or nothing.
- Truthiness is modelled only for the value kinds listed in each reply datatype:
  - `success` is a boolean;
  - `is_auto_dj` is a boolean, `null` or absent. A non-boolean truthy `is_auto_dj`, which `|| false` would pass through, is not modelled.
- `decodeURIComponent` is an arbitrary function that may reject its input. Its percent-decoding is not modelled.
