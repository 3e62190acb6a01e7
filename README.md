# bot-rs music core, modelled in Dafny

bot-rs is a Discord bot whose music commands play YouTube audio in a voice channel. This
project models the three pieces of it that are sequential logic rather than calls into the
chat service or the voice library, and proves what they promise:

- **Music commands** (`src/commands/music.rs`, module `Music`): `duration_hhmmss` (whole
  seconds split into hours, minutes and seconds, each zero-filled to two columns),
  `progress_bar` (a bar of `#` and `-` cells), the embed `track_embed` builds with its
  defaults for missing metadata, the `nowplaying` embed with the time left, the reply to
  `play` with the track's place in the queue, and the `queue` command, whose loop cuts the
  queue listing into pages of ten numbered lines before handing them to the paginator.
- **Page navigation** (`src/paginate.rs`, module `Paginate`): the first reply shows page 1;
  the "next" and "previous" buttons move a cursor over the pages with wrap-around at both
  ends; presses of any other button change nothing. The collector's stream of presses is a
  finite sequence of button ids.
- **The YouTube source** (`src/audio/sources.rs`, module `Sources`): `YouTube::new` looks the
  video up, refuses unplayable videos and videos without an audio format, deciphers the
  stream URL and keeps the metadata `details_to_metadata` derives; the `Compose`
  implementation refuses synchronous creation, builds the stream request from the stored
  fields and hands back the stored metadata.

Supporting modules model what the core takes from its libraries: `Decimal` (Rust's decimal
`Display` and `str::parse::<u64>` for unsigned integers, and `{:0>2}` padding), `Durations`
(`std::time::Duration`: `as_secs`, `from_secs`, and subtraction that panics below zero),
`Serenity` (the embed builder), `Songbird` (`AuxMetadata`, `AudioStreamError`,
`HttpRequest`) and `Wrappers` (`Option`, `Result`).

Panics are modelled in two ways. Where the panic depends on data the program does not
control (a playback position past the track's end in `nowplaying`, a bar that would
overflow in `progress_bar`), the function returns `None` exactly where the program panics.
Where the program takes a value to be well-formed, the assumption is a `requires`: the
video service's answer is assumed to carry a numeric length, at least one thumbnail and a
numeric content length (`details_to_metadata` and `create_async` unwrap them, treating
malformed data as a breach of the service's contract), and `paginate`'s caller passes at
least one page (it reads `pages[0]`).

The video-info service (`Innertube`: `info`, `best_audio`, `decipher_format`) is a
parameter: a record of three arbitrary functions, so every property of `YouTube::new`
holds for every answer the service can give.

## Model

| member | source | states |
|---|---|---|
| `Music.SplitHms` | src/commands/music.rs:372-376 | Minutes and seconds are below 60, and hours * 3600 + minutes * 60 + seconds equals the input's whole seconds. |
| `Music.SplitHours` | src/commands/music.rs:376 | The hours field is the whole seconds divided by 3600. |
| `Music.SplitRecombine` | src/commands/music.rs:373-376 | Splitting undoes recombining: the split is the only one with minutes and seconds below 60. |
| `Music.HhMmSs` | src/commands/music.rs:372-378 | `duration_hhmmss`: the text ends in ":mm:ss" with ':' at the third and sixth places from the end, is at least 8 characters, and exactly 8 below 100 hours, where hours can take more columns. |
| `Music.HhMmSsDigits` | src/commands/music.rs:377 | Every character but the two ':' is a decimal digit (no sign), and hours wider than two columns have no leading zero, as `{:0>2}` pads only to two columns. |
| `Music.TwoColumns` | src/commands/music.rs:377 | `{:0>2}` of a number: at least two characters, digits only, and a leading zero only when the text is exactly two wide. |
| `Music.HhMmSsWholeSeconds` | src/commands/music.rs:373 | Two durations with the same whole seconds render the same: sub-second precision is ignored. |
| `Music.HhMmSsRoundTrip` | src/commands/music.rs:372-378 | Reading the rendered text back as hh:mm:ss gives the duration's whole seconds: nothing but the sub-second part is lost. |
| `Music.TwoColumnsDigits` | src/commands/music.rs:377 | A zero-padded field contains no ':' and parses back to its number. |
| `Music.SplitThreeFields` | src/commands/music.rs:377 | Three ':'-free fields joined by ':' split back into exactly those fields. |
| `Music.BarCells` | src/commands/music.rs:385-387 | Filled plus empty cells equal the bar length; the filled count is floor(bar_length * current / end); with 0 < end there is no panic exactly when bar_length * current < (bar_length + 1) * end, so never while current <= end; with end = 0 it panics exactly when current > 0 and the bar is not empty, and otherwise fills no cell (0/0 is NaN, which the cast turns into 0). |
| `Music.ProgressBar` | src/commands/music.rs:380-389 | Present exactly when the cell split is; the text is "**[", `left` '#' cells, the remaining '-' cells, "]**", bar_length + 6 characters long. |
| `Music.ProgressBarEnds` | src/commands/music.rs:385-387 | At the end of a track the bar is full, at its start it is empty. |
| `Music.TrackEmbed` | src/commands/music.rs:347-370 | The header is the title; there are three fields, the third naming the requester; the footer is "Duration: " and the duration as hh:mm:ss, 0 seconds when the duration is missing. |
| `Music.TrackEmbedFields` | src/commands/music.rs:354-367 | Title, link and channel each independently: shown as "### title", "[click me](link)" and the channel when present, and "### No Title", "[click me]()" and "No Channel" when missing. |
| `Music.DurationOrZero` | src/commands/music.rs:358 | The track's duration when it has one, `Duration::new(0, 0)` otherwise. |
| `Music.TrackEmbedDefaults` | src/commands/music.rs:354-361 | With no metadata, the embed shows "### No Title", "[click me]()", "No Channel" and "Duration: 00:00:00". |
| `Music.ZeroDurationText` | src/commands/music.rs:358-360 | The zero duration renders as "00:00:00". |
| `Music.PlayReply` | src/commands/music.rs:131-138 | An empty queue gets exactly "Track added"; otherwise the reply is the track's embed titled "Enqueued" (its description, three fields and footer unchanged) with a fourth, not inline, field "Position" reading "#", the queue length plus one, and " in queue". |
| `Music.ReportedPositionHoldsTrack` | src/commands/music.rs:131-141 | The reported 1-based position is where the track sits once it is appended to the queue. |
| `Music.NowPlaying` | src/commands/music.rs:183-199 | There is an embed exactly when the position does not pass the duration (a missing duration counting as 0), otherwise the subtraction panics; the embed is titled "Now Playing", keeps the track embed's description and three fields, adds a not-inline "Progress" field holding "[position/duration]", a line break and the bar, and its footer is the time-left text of duration minus position. |
| `Music.ProgressTextParts` | src/commands/music.rs:186-191 | The progress text is "[", a time that reads back as the position's whole seconds, "/", one that reads back as the duration's, "]", a line break, and then the bar alone on its line. |
| `Music.TimeLeftText` | src/commands/music.rs:193-195 | The footer ends in " left in track" and what precedes it reads back as the whole seconds left. |
| `Music.NowPlayingBarExists` | src/commands/music.rs:185-190 | Once the time left exists, the progress bar does not panic. |
| `Music.QueueLineParts` | src/commands/music.rs:231-236 | A listing line is the 0-based index as a canonical numeral, ". ", and the title, or "~~~~" for a track without one. |
| `Music.QueueLines` | src/commands/music.rs:229-236 | One line per track, in queue order, line i describing track i. |
| `Music.JoinAppend` | src/commands/music.rs:232-236 | Joining two non-empty runs of lines is joining each and putting a newline between them. |
| `Music.PageCount` | src/commands/music.rs:227 | The page count for n lines is the ceiling of n / 10: enough pages for every line and no empty page, and zero exactly when there are no lines. |
| `Music.ChunkCount` | src/commands/music.rs:227-238 | Cutting the lines into pages of ten gives ceil(n / 10) pages. |
| `Music.ChunksSnoc` | src/commands/music.rs:232-236 | Adding line i starts a new page exactly when i % 10 == 0 and otherwise appends "\n" and the line to the last page. |
| `Music.BuildPages` | src/commands/music.rs:228-238 | The loop's pages are exactly the queue's lines "i. title" (a missing title written "~~~~") cut into consecutive pages of ten, joined by newlines. |
| `Music.PageSlice` | src/commands/music.rs:232-236 | Every page shows between 1 and 10 lines. |
| `Music.PageContents` | src/commands/music.rs:228-238 | Page p is lines 10p up to 10p + 9 (fewer on the last page) joined by newlines in queue order. |
| `Music.EntryOnPage` | src/commands/music.rs:228-238 | The entry at index i is on page i / 10, as line i % 10 of that page. |
| `Music.PagesKeepEveryLine` | src/commands/music.rs:228-238 | The pages joined by newlines are the whole listing joined by newlines (line by line placement is `Music.PageContents`). |
| `Music.Queue` | src/commands/music.rs:209-242 | Outside a voice channel the reply is "Not in a voice channel"; an empty queue gets "Nothing is in the queue" and no paging; otherwise ceil(n / 10) pages are shown through the paginator titled "Currently Playing". |
| `Paginate.PrevButtonId` | src/paginate.rs:11 | The "previous" id is the invocation id followed by "prev". |
| `Paginate.NextButtonId` | src/paginate.rs:12 | The "next" id is the invocation id followed by "next". |
| `Paginate.Footer` | src/paginate.rs:60-62 | "page a out of b", where a is a canonical numeral for the 0-based page plus one and b one for the page count. |
| `Paginate.PageEmbed` | src/paginate.rs:64-67 | The shown embed has the title, page `current` as description, no fields, and that page's footer. |
| `Paginate.UpdatesShowPages` | src/paginate.rs:60-76 | Every message update shows one of the pages, under the reply's title and with that page's footer. |
| `Paginate.ButtonIds` | src/paginate.rs:11-12 | Both button ids start with the invocation id, so both pass the press filter, and they differ. |
| `Paginate.FirstFooter` | src/paginate.rs:26-28 | The first footer reads "page 1 out of " and the page count. |
| `Paginate.Next` | src/paginate.rs:48-52 | "Next" always lands on an existing page. |
| `Paginate.Prev` | src/paginate.rs:53-54 | "Previous" always lands on an existing page. |
| `Paginate.NextPrevInverse` | src/paginate.rs:48-54 | "Next" then "previous", and "previous" then "next", come back to the same page, including across the wrap-around. |
| `Paginate.Classify` | src/paginate.rs:42-57 | A press moves forward exactly when it is the next button and back exactly when it is the previous button; every other press is ignored. |
| `Paginate.Step` | src/paginate.rs:48-57 | One press keeps the cursor on an existing page. |
| `Paginate.PageAfter` | src/paginate.rs:37-58 | After any sequence of presses the cursor is on an existing page, so `pages[current_page]` is in bounds. |
| `Paginate.Paginate` | src/paginate.rs:10-77 | The first reply shows page 0 with footer "page 1 out of n"; the loop's cursor and its message updates are those of the press sequence, and the final cursor is in bounds. |
| `Paginate.OneUpdatePerNavigation` | src/paginate.rs:55-76 | Each navigation press produces exactly one update, every other press none. |
| `Paginate.UnrelatedPressesIgnored` | src/paginate.rs:55-57 | Presses of neither button leave the cursor where it was and produce no update. |
| `Paginate.NextPresses` | src/paginate.rs:48 | k presses of the next button. |
| `Paginate.NextPressesAdvance` | src/paginate.rs:48-52 | Short of the last page, k presses of "next" move the cursor k pages on. |
| `Paginate.NextPressesWrap` | src/paginate.rs:49-52 | Past the last page, the cursor continues from the first page. |
| `Paginate.FullCycle` | src/paginate.rs:48-52 | As many "next" presses as there are pages return to the starting page. |
| `Sources.DetailsToMetadata` | src/audio/sources.rs:101-120 | Title and channel are the video's title and author, the source URL is the watch-URL prefix followed by the video id, the thumbnail is the first thumbnail's, channels is 2, the duration is the parsed length in whole seconds, and every other field is absent. |
| `Sources.WatchUrlRoundTrip` | src/audio/sources.rs:104 | The source URL gives the video id back, so distinct videos get distinct links. |
| `Sources.DurationRoundTrip` | src/audio/sources.rs:102 | A length reported as the decimal numeral of n gives a duration of n seconds. |
| `Sources.New` | src/audio/sources.rs:31-62 | Success exactly when lookup, playability ("OK"), format choice and decipher all succeed; each failing step yields its own error ("Video is unavailable.", "No formats found", or the wrapped service error) and every failure is `Fail`; on success the stream URL is the deciphered one, the file size the format's content length, and the metadata that of the video details. |
| `Sources.FirstFailureDecides` | src/audio/sources.rs:36-51 | The steps after the first failing one are never consulted: services that agree up to it give the same result. |
| `Sources.Create` | src/audio/sources.rs:73-75 | Synchronous creation is always refused as unsupported. |
| `Sources.ShouldCreateAsync` | src/audio/sources.rs:92-94 | Always true. |
| `Sources.StreamRequest` | src/audio/sources.rs:80-87 | The request uses the stored client and stream URL and no headers; it has a content length exactly when a file size is stored, and then it is that size parsed. |
| `Sources.GetAuxMetadata` | src/audio/sources.rs:96-98 | Returns the stored metadata unchanged. |
| `Sources.ResolvedSourceReports` | src/audio/sources.rs:53-98 | A source built from a resolving video reports that video's metadata, requests the deciphered URL with the chosen format's length, and refuses synchronous creation. |
| `Decimal.ToDecimal` | src/paginate.rs:11-12 | The decimal text of a number is never empty. |
| `Decimal.ToDecimalValue` | src/commands/music.rs:134 | The decimal text of n is a canonical numeral whose value is n. |
| `Decimal.CanonicalRoundTrip` | src/audio/sources.rs:102 | Displaying the value of a canonical numeral gives the numeral back. |
| `Decimal.LeadingDigitBound` | src/audio/sources.rs:102 | A numeral's value is at least its leading digit. |
| `Decimal.ToDecimalWidth` | src/commands/music.rs:377 | Numbers below 10 take one digit, below 100 two. |
| `Decimal.Repeat` | src/commands/music.rs:388 | `str::repeat` of one character: k copies of it. |
| `Decimal.ZeroPad` | src/commands/music.rs:377 | The padded text is as wide as the original or the requested width, whichever is larger. |
| `Decimal.ZeroPadShape` | src/commands/music.rs:377 | The padded text ends with the original and is '0' in front of it. |
| `Decimal.LeadingZerosValue` | src/commands/music.rs:377 | Leading zeros keep a numeral all digits and do not change its value. |
| `Decimal.SignLength` | src/audio/sources.rs:102 | One exactly when the text starts with '+', the only sign a `u64` parse accepts. |
| `Decimal.ParseU64` | src/audio/sources.rs:102 | Parsing succeeds exactly when what follows an optional leading '+' is one or more digits whose value fits in 64 bits, and then yields that value; empty text or a leading '-' is an error. |
| `Decimal.ParseZeroPadded` | src/commands/music.rs:377 | Any 64-bit number, displayed and zero-padded to any width, parses back to itself. |
| `Decimal.ParseToDecimal` | src/audio/sources.rs:102 | Any 64-bit number displayed in decimal parses back to itself. |
| `Durations.Duration.AsSecs` | src/commands/music.rs:373 | `as_secs` is the total length in nanoseconds divided by 10^9, rounded down. |
| `Durations.FromSecs` | src/audio/sources.rs:114 | A duration of exactly s whole seconds. |
| `Durations.CheckedSub` | src/commands/music.rs:185 | Subtraction succeeds exactly when the result is not negative, and then it is the difference of the total lengths. |
| `Durations.ShorterHasFewerSecs` | src/commands/music.rs:185-186 | A duration no longer than another has no more whole seconds. |

Proof helpers about arithmetic and sequences (`Music.FloorDiv`, `Music.FloorDivWithin`,
`Music.MulMono`, `Music.FilledCells`, `Music.SliceOfSuffix`, and the steps `Music.ZeroSplit`,
`Music.ZeroTwoColumns`, `Music.ZeroFieldsJoined`, `Music.ZeroDurationFields` behind
`Music.ZeroDurationText`) carry no row, nor do the model's own reader of hh:mm:ss text
(`Music.SplitOn`, `Music.ParseHhMmSs`, `Music.SplitOnNoSeparator`,
`Music.SplitOnFirstSeparator`), which exists only to state round trips. The reference
functions `Music.ProgressText`, `Paginate.Updates` and `Music.Chunks` are specified by the rows of the lemmas and methods
about them (`Music.ProgressTextParts`, `Music.NowPlaying`; `Paginate.Paginate`,
`Paginate.UpdatesShowPages`, `Paginate.OneUpdatePerNavigation`; `Music.BuildPages`,
`Music.PageContents`).

## Left out

- Discord and voice I/O: sending replies, joining and leaving channels, reading and changing
  the voice queue (`skip`, `pause`, `resume`, `stop`, `enqueue`, looping) are calls into
  serenity, poise and songbird. Their results (the queue's contents, the playback position)
  are parameters, and the replies are returned values.
- `nowplaying`'s other replies ("Not in a voice channel", "Nothing is playing right now",
  "Oops something went wrong...") depend only on voice-library state; `Music.NowPlaying`
  starts from a current track and its position.
- `play`'s search and source construction around the position rule, and the lazy `RustYTDL`
  source it builds: `RustYTDL` is not part of this model; its definition lies outside the
  modelled files, so only the reply to `play` is modelled.
- The interaction collector in `paginate` (its filter closure, its four-hour timeout, the
  awaiting): presses are a finite sequence of ids; the filter is the `StartsWith` test in
  `Paginate.Classify`.
- Network calls: `Innertube::info`, `decipher_format` and the ranking in `best_audio` are
  arbitrary functions; `HttpRequest::create_async`, which opens the stream, is not modelled
  beyond the request it is given.
- `Music.BarCells`: computes `floor(bar_length * current / end)` exactly, while the program
  divides in `f64`; f64 rounding is not captured. For the width 18 that `nowplaying` passes
  the two agree on small durations, but for other widths they can differ even there (at
  width 22, 15 s of 22 s fills 14 cells in f64 and 15 in the model). The f64 cases
  with `end == 0` (0/0 giving no filled cells, x/0 saturating and panicking) are kept.
- `Music.PageCount`: the program's `f32` page count only sizes the vector's capacity; the
  model proves the number of pages produced instead.
- `Sources.New`: the asynchronous awaiting of the service is not modelled; each call's answer
  is a value. `AudioStreamError::RetryIn` is never produced by this code and is left out.
- `AuxMetadata` fields the code never sets (`start_time`, `sample_rate`) stay absent;
  serenity's embed and songbird's types are reduced to the fields the code fills in.
- The rest of the repository (`main.rs`, `shuttle.rs`, `events.rs`, `traits.rs`, the admin and
  other commands) is start-up wiring and one-line replies; `games.rs` is not compiled into
  the bot.
