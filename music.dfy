/**
  The music commands' own logic (commands/music.rs): rendering a duration as
  hh:mm:ss, drawing a progress bar, the embeds that describe a track, the reply to
  `play`, and cutting the queue listing into pages of ten lines for `queue`.

  Everything the commands do through the chat service and the voice library (joining
  a channel, reading the queue, sending messages) is outside this model; their
  results are parameters here.
*/
module Music {
  import opened Wrappers
  import opened Decimal
  import opened Durations
  import opened Serenity
  import opened Songbird
  import Paginate

  // ---------------------------------------------------------------------------
  // hh:mm:ss

  datatype Hms = Hms(hours: nat, minutes: nat, seconds: nat)

  function Seconds(t: Hms): nat {
    t.hours * 3600 + t.minutes * 60 + t.seconds
  }

  /** The split `duration_hhmmss` makes of a count of whole seconds: the fields recombine
      to the count, and minutes and seconds stay below 60. */
  function SplitHms(secs: nat): (t: Hms)
    ensures t.minutes < 60 && t.seconds < 60
    ensures Seconds(t) == secs
  {
    Hms((secs / 60) / 60, (secs / 60) % 60, secs % 60)
  }

  /** The hours are the count's whole hours. */
  lemma SplitHours(secs: nat)
    ensures SplitHms(secs).hours == secs / 3600
  {
    var t := SplitHms(secs);
    assert secs == t.hours * 3600 + (t.minutes * 60 + t.seconds);
    assert 0 <= t.minutes * 60 + t.seconds < 3600;
  }

  /** The split is the only one with minutes and seconds below 60, so splitting undoes
      recombining. */
  lemma SplitRecombine(t: Hms)
    requires t.minutes < 60 && t.seconds < 60
    ensures SplitHms(Seconds(t)) == t
  {
    var secs := Seconds(t);
    assert secs == (t.hours * 60 + t.minutes) * 60 + t.seconds;
    assert secs / 60 == t.hours * 60 + t.minutes;
  }

  /** A number written in at least two columns, zero-filled (`{:0>2}`): digits only, and a
      leading zero only where it fills the second column. */
  function TwoColumns(n: nat): (s: string)
    ensures |s| >= 2 && AllDigits(s)
    ensures |s| > 2 ==> s[0] != '0'
  {
    var d := ToDecimal(n);
    ToDecimalValue(n);
    ZeroPadShape(d, 2);
    ZeroPad(d, 2)
  }

  /** `duration_hhmmss`: whole hours, minutes and seconds, each in at least two columns,
      separated by ':'. Hours can take more than two columns; below 100 hours the text is
      exactly "hh:mm:ss". */
  function HhMmSs(d: Duration): (s: string)
    ensures |s| >= 8 && s[|s| - 3] == ':' && s[|s| - 6] == ':'
    ensures d.AsSecs() < 100 * 3600 ==> |s| == 8
  {
    var t := SplitHms(d.AsSecs());
    SplitHours(d.AsSecs());
    ToDecimalWidth(t.minutes);
    ToDecimalWidth(t.seconds);
    ToDecimalWidth(t.hours);
    assert |TwoColumns(t.minutes)| == 2 && |TwoColumns(t.seconds)| == 2;
    TwoColumns(t.hours) + ":" + TwoColumns(t.minutes) + ":" + TwoColumns(t.seconds)
  }

  /** Every character but the two separators is a decimal digit, and hours that need more
      than two columns carry no leading zero. */
  lemma HhMmSsDigits(d: Duration)
    ensures var s := HhMmSs(d);
      && (forall i :: 0 <= i < |s| && i != |s| - 3 && i != |s| - 6 ==> IsDigit(s[i]))
      && (|s| > 8 ==> s[0] != '0')
  {
    var t := SplitHms(d.AsSecs());
    var h, m, c := TwoColumns(t.hours), TwoColumns(t.minutes), TwoColumns(t.seconds);
    var s := HhMmSs(d);
    assert s == h + ":" + m + ":" + c;
    assert |m| == 2 && |c| == 2 by {
      ToDecimalWidth(t.minutes);
      ToDecimalWidth(t.seconds);
    }
    forall i | 0 <= i < |s| && i != |s| - 3 && i != |s| - 6
      ensures IsDigit(s[i])
    {
      if i < |h| {
        assert s[i] == h[i];
      } else if i < |h| + 3 {
        assert s[i] == m[i - |h| - 1];
      } else {
        assert s[i] == c[i - |h| - 4];
      }
    }
    if |s| > 8 {
      assert s[0] == h[0];
    }
  }

  /** The rendering ignores sub-second precision. */
  lemma HhMmSsWholeSeconds(d: Duration, e: Duration)
    requires d.AsSecs() == e.AsSecs()
    ensures HhMmSs(d) == HhMmSs(e)
  {
  }

  /** Splits text at every occurrence of `sep`. */
  function SplitOn(s: string, sep: char): (parts: seq<string>)
    ensures |parts| >= 1
    decreases |s|
  {
    if |s| == 0 then [""]
    else
      var rest := SplitOn(s[1..], sep);
      if s[0] == sep then [""] + rest else [[s[0]] + rest[0]] + rest[1..]
  }

  lemma {:induction false} SplitOnNoSeparator(s: string, sep: char)
    requires sep !in s
    ensures SplitOn(s, sep) == [s]
    decreases |s|
  {
    if |s| > 0 {
      SplitOnNoSeparator(s[1..], sep);
      assert [s[0]] + s[1..] == s;
    }
  }

  lemma {:induction false} SplitOnFirstSeparator(a: string, sep: char, b: string)
    requires sep !in a
    ensures SplitOn(a + [sep] + b, sep) == [a] + SplitOn(b, sep)
    decreases |a|
  {
    var s := a + [sep] + b;
    if |a| == 0 {
      assert s[1..] == b;
    } else {
      assert s[1..] == a[1..] + [sep] + b;
      SplitOnFirstSeparator(a[1..], sep, b);
      assert [a[0]] + a[1..] == a;
    }
  }

  /** Reads hh:mm:ss text back into seconds: the inverse of `HhMmSs`. */
  function ParseHhMmSs(s: string): Option<nat> {
    var parts := SplitOn(s, ':');
    if |parts| != 3 then None
    else
      match (ParseU64(parts[0]), ParseU64(parts[1]), ParseU64(parts[2]))
      case (Some(h), Some(m), Some(sec)) =>
        if m < 60 && sec < 60 then Some(Seconds(Hms(h, m, sec))) else None
      case _ => None
  }

  lemma TwoColumnsDigits(n: nat)
    requires n <= U64_MAX
    ensures ':' !in TwoColumns(n)
    ensures ParseU64(TwoColumns(n)) == Some(n)
  {
    ParseZeroPadded(n, 2);
    var d := ToDecimal(n);
    ToDecimalValue(n);
    if |d| < 2 {
      LeadingZerosValue(Repeat('0', 2 - |d|), d);
    }
    assert AllDigits(TwoColumns(n));
  }

  lemma SplitThreeFields(h: string, m: string, s: string)
    requires ':' !in h && ':' !in m && ':' !in s
    ensures SplitOn(h + ":" + m + ":" + s, ':') == [h, m, s]
  {
    var tail := m + [':'] + s;
    SplitOnNoSeparator(s, ':');
    SplitOnFirstSeparator(m, ':', s);
    assert SplitOn(tail, ':') == [m, s];
    SplitOnFirstSeparator(h, ':', tail);
    assert SplitOn(h + [':'] + tail, ':') == [h, m, s];
    assert h + ":" + m + ":" + s == h + [':'] + tail;
  }

  /** No information is lost: the rendered text reads back as the duration's whole seconds. */
  lemma HhMmSsRoundTrip(d: Duration)
    requires d.Valid()
    ensures ParseHhMmSs(HhMmSs(d)) == Some(d.AsSecs())
  {
    var t := SplitHms(d.AsSecs());
    TwoColumnsDigits(t.hours);
    TwoColumnsDigits(t.minutes);
    TwoColumnsDigits(t.seconds);
    SplitThreeFields(TwoColumns(t.hours), TwoColumns(t.minutes), TwoColumns(t.seconds));
  }

  // ---------------------------------------------------------------------------
  // Progress bar

  /** The bar width `nowplaying` asks for. */
  const BAR_LENGTH: nat := 18

  /** Integer division rounds down: the quotient is the largest q with q * d <= x. */
  lemma FloorDiv(x: nat, d: nat)
    requires d > 0
    ensures (x / d) * d <= x < (x / d + 1) * d
  {
  }

  /** The rounded-down quotient stays within `bound` exactly when x is below (bound + 1) * d. */
  lemma FloorDivWithin(x: nat, d: nat, bound: nat)
    requires d > 0
    ensures x / d <= bound <==> x < (bound + 1) * d
  {
    var q := x / d;
    FloorDiv(x, d);
    MulMono(q + 1, bound + 1, d);
    MulMono(bound + 1, q, d);
  }

  lemma MulMono(a: nat, b: nat, d: nat)
    ensures a <= b ==> a * d <= b * d
  {
  }

  /** The arithmetic of the filled-cell count: it is the rounded-down share of the bar, it
      fits in the bar exactly when bar_length * current < (bar_length + 1) * end, and so it
      always fits while current <= end. */
  lemma FilledCells(current: nat, end: nat, barLength: nat)
    requires end > 0
    ensures var left := barLength * current / end;
      && left * end <= barLength * current < (left + 1) * end
      && (left <= barLength <==> barLength * current < (barLength + 1) * end)
      && (current <= end ==> left <= barLength)
  {
    FloorDiv(barLength * current, end);
    FloorDivWithin(barLength * current, end, barLength);
    MulMono(current, end, barLength);
  }

  /** How `progress_bar` divides `bar_length` cells into filled (`#`) and empty (`-`) ones:
      the filled count is the elapsed fraction of the bar, rounded down. `None` is where
      the program panics because `bar_length - left` would go below zero, which past the
      end of the track happens exactly once a whole extra cell would be filled. With no
      length to measure against, 0 of 0 seconds is 0/0, which the program turns into
      no filled cells, while anything else over 0 is infinite and panics unless the bar
      is empty. */
  function BarCells(current: nat, end: nat, barLength: nat): (r: Option<(nat, nat)>)
    ensures r.Some? ==> r.value.0 + r.value.1 == barLength
    ensures r.Some? && end > 0 ==> r.value.0 * end <= barLength * current < (r.value.0 + 1) * end
    ensures end > 0 ==> (r.Some? <==> barLength * current < (barLength + 1) * end)
    ensures end > 0 && current <= end ==> r.Some?
    ensures end == 0 ==> (r.Some? <==> current == 0 || barLength == 0)
    ensures end == 0 && r.Some? ==> r.value == (0, barLength)
  {
    if end == 0 then
      if current == 0 || barLength == 0 then Some((0, barLength)) else None
    else
      var left := barLength * current / end;
      FilledCells(current, end, barLength);
      if left <= barLength then Some((left, barLength - left)) else None
  }

  /** `progress_bar`: `**[`, the filled cells, the empty cells, `]**`. */
  function ProgressBar(current: Duration, end: Duration, barLength: nat): (r: Option<string>)
    ensures r.Some? <==> BarCells(current.AsSecs(), end.AsSecs(), barLength).Some?
    ensures r.Some? ==>
      var left := BarCells(current.AsSecs(), end.AsSecs(), barLength).value.0;
      && |r.value| == barLength + 6
      && r.value[..3] == "**[" && r.value[barLength + 3..] == "]**"
      && (forall i :: 3 <= i < 3 + left ==> r.value[i] == '#')
      && (forall i :: 3 + left <= i < 3 + barLength ==> r.value[i] == '-')
  {
    match BarCells(current.AsSecs(), end.AsSecs(), barLength)
    case None => None
    case Some((left, right)) =>
      Some("**[" + Repeat('#', left) + Repeat('-', right) + "]**")
  }

  /** A full track fills the whole bar; a track at its start fills none of it. */
  lemma ProgressBarEnds(end: Duration, barLength: nat)
    requires end.AsSecs() > 0
    ensures BarCells(end.AsSecs(), end.AsSecs(), barLength) == Some((barLength, 0))
    ensures BarCells(0, end.AsSecs(), barLength) == Some((0, barLength))
  {
    var e := end.AsSecs();
    var q := barLength * e / e;
    FloorDiv(barLength * e, e);
    MulMono(q + 1, barLength, e);
    MulMono(barLength + 1, q, e);
  }

  // ---------------------------------------------------------------------------
  // Track embeds and replies

  /** What a queued track carries: its metadata and who asked for it. */
  datatype TrackData = TrackData(metadata: AuxMetadata, requester: string)

  /** The replies a command sends: plain text, text only the caller sees, or an embed. */
  datatype Reply = Say(text: string) | SayEphemeral(text: string) | Send(embed: Embed)

  const NO_TITLE: string := "No Title"
  const NO_CHANNEL: string := "No Channel"
  const NOW_PLAYING: string := "Now Playing"
  const ENQUEUED: string := "Enqueued"
  const TRACK_ADDED: string := "Track added"
  const LEFT_IN_TRACK: string := " left in track"

  /** A track without a known duration is shown as lasting no time at all. */
  function DurationOrZero(m: AuxMetadata): (d: Duration)
    ensures m.duration.Some? ==> d == m.duration.value
    ensures m.duration.None? ==> d == ZERO
  {
    m.duration.UnwrapOr(ZERO)
  }

  /** `track_embed`: the header as title, the track's title, link, channel and requester,
      and its duration in the footer; absent metadata is replaced by fixed defaults. */
  function TrackEmbed(header: string, data: TrackData): (e: Embed)
    ensures e.title == Some(header) && |e.fields| == 3
    ensures e.fields[2] == EmbedField("Requester", data.requester, true)
    ensures e.footer == Some("Duration: " + HhMmSs(DurationOrZero(data.metadata)))
  {
    var metadata := data.metadata;
    Embed(
      Some(header),
      Some("### " + metadata.title.UnwrapOr(NO_TITLE)),
      [ EmbedField("Link", "[click me](" + metadata.sourceUrl.UnwrapOr("") + ")", true),
        EmbedField("Channel", metadata.channel.UnwrapOr(NO_CHANNEL), true),
        EmbedField("Requester", data.requester, true) ],
      Some("Duration: " + HhMmSs(DurationOrZero(metadata))))
  }

  /** Each of title, link and channel is shown as given when present and replaced by its
      own default when missing, independently of the other two. */
  lemma TrackEmbedFields(header: string, data: TrackData)
    ensures var m := data.metadata;
      var e := TrackEmbed(header, data);
      && e.description == Some("### " + (if m.title.Some? then m.title.value else NO_TITLE))
      && e.fields[0] == EmbedField("Link", "[click me](" + (if m.sourceUrl.Some? then m.sourceUrl.value else "") + ")", true)
      && e.fields[1] == EmbedField("Channel", if m.channel.Some? then m.channel.value else NO_CHANNEL, true)
  {
  }

  /** With no metadata at all, the embed shows the defaults. */
  lemma TrackEmbedDefaults(header: string, requester: string)
    ensures var e := TrackEmbed(header, TrackData(DEFAULT_METADATA, requester));
      && e.description == Some("### " + NO_TITLE)
      && e.fields[0].value == "[click me]()"
      && e.fields[1].value == NO_CHANNEL
      && e.footer == Some("Duration: " + "00:00:00")
  {
    var data := TrackData(DEFAULT_METADATA, requester);
    var e := TrackEmbed(header, data);
    assert DurationOrZero(data.metadata) == ZERO;
    assert e.footer == Some("Duration: " + "00:00:00") by {
      ZeroDurationText();
    }
    assert e.fields[0].value == "[click me]()" by {
      assert "[click me](" + "" + ")" == "[click me]()";
    }
  }

  lemma ZeroDurationText()
    ensures HhMmSs(ZERO) == "00:00:00"
  {
    ZeroDurationFields();
    ZeroTwoColumns();
    ZeroFieldsJoined(TwoColumns(0));
  }

  lemma ZeroDurationFields()
    ensures HhMmSs(ZERO) == TwoColumns(0) + ":" + TwoColumns(0) + ":" + TwoColumns(0)
  {
    ZeroSplit();
  }

  lemma ZeroSplit()
    ensures SplitHms(0) == Hms(0, 0, 0)
  {
  }

  lemma ZeroTwoColumns()
    ensures TwoColumns(0) == "00"
  {
    assert DigitChar(0) == '0';
    assert ToDecimal(0) == "0";
    assert Repeat('0', 1) == ['0'];
    assert ZeroPad("0", 2) == "00";
  }

  lemma ZeroFieldsJoined(x: string)
    requires x == "00"
    ensures x + ":" + x + ":" + x == "00:00:00"
  {
  }

  /** The reply to `play`: into an empty queue, a plain "Track added"; otherwise the
      track's embed with its place in the queue. */
  function PlayReply(data: TrackData, queueLen: nat): (r: Reply)
    ensures queueLen == 0 <==> r == Say(TRACK_ADDED)
    ensures queueLen > 0 ==> && r.Send?
                             && r.embed.title == Some(ENQUEUED)
                             && r.embed.description == TrackEmbed(ENQUEUED, data).description
                             && r.embed.footer == TrackEmbed(ENQUEUED, data).footer
                             && |r.embed.fields| == 4
                             && r.embed.fields[..3] == TrackEmbed(ENQUEUED, data).fields
                             && r.embed.fields[3] == EmbedField("Position", "#" + ToDecimal(queueLen + 1) + " in queue", false)
  {
    if queueLen > 0 then
      Send(TrackEmbed(ENQUEUED, data).WithField("Position", "#" + ToDecimal(queueLen + 1) + " in queue", false))
    else
      Say(TRACK_ADDED)
  }

  /** The place reported is the place the track takes once it is added at the end. */
  lemma ReportedPositionHoldsTrack<T>(queue: seq<T>, track: T)
    ensures var q := queue + [track];
      var position := |queue| + 1;
      1 <= position == |q| && q[position - 1] == track
  {
  }

  /** `nowplaying` for the current track at playback position `position`: the track's embed
      with the progress ("[position/duration]" over the bar) and, in the footer, the time
      left. `None` where the program panics: a position past the track's duration (a
      track without a duration counts as lasting no time). */
  function NowPlaying(data: TrackData, position: Duration): (r: Option<Embed>)
    requires position.Valid() && DurationOrZero(data.metadata).Valid()
    ensures r.Some? <==> position.TotalNanos() <= DurationOrZero(data.metadata).TotalNanos()
    ensures r.Some? ==>
      && r.value.title == Some(NOW_PLAYING)
      && |r.value.fields| == 4 && r.value.fields[..3] == TrackEmbed(NOW_PLAYING, data).fields
      && r.value.description == TrackEmbed(NOW_PLAYING, data).description
      && r.value.fields[3] == EmbedField("Progress", ProgressText(position, DurationOrZero(data.metadata)), false)
      && r.value.footer == Some(TimeLeftText(CheckedSub(DurationOrZero(data.metadata), position).value))
  {
    var duration := DurationOrZero(data.metadata);
    match CheckedSub(duration, position)
    case None => None
    case Some(left) =>
      NowPlayingBarExists(data, position);
      Some(TrackEmbed(NOW_PLAYING, data).WithField("Progress", ProgressText(position, duration), false).WithFooter(TimeLeftText(left)))
  }

  /** The progress field of `nowplaying`: "[position/duration]", a line break, then the bar. */
  function ProgressText(position: Duration, duration: Duration): string
    requires ProgressBar(position, duration, BAR_LENGTH).Some?
  {
    "[" + HhMmSs(position) + "/" + HhMmSs(duration) + "]\n" + ProgressBar(position, duration, BAR_LENGTH).value
  }

  /** The progress text is one line with both times, which read back as the position's and
      the duration's whole seconds, then a line holding only the bar. */
  lemma ProgressTextParts(position: Duration, duration: Duration)
    requires position.Valid() && duration.Valid()
    requires ProgressBar(position, duration, BAR_LENGTH).Some?
    ensures var bar := ProgressBar(position, duration, BAR_LENGTH).value;
      exists p, q ::
        && ProgressText(position, duration) == "[" + p + "/" + q + "]\n" + bar
        && ParseHhMmSs(p) == Some(position.AsSecs())
        && ParseHhMmSs(q) == Some(duration.AsSecs())
        && '\n' !in bar
  {
    HhMmSsRoundTrip(position);
    HhMmSsRoundTrip(duration);
    var bar := ProgressBar(position, duration, BAR_LENGTH).value;
    assert ProgressText(position, duration) == "[" + HhMmSs(position) + "/" + HhMmSs(duration) + "]\n" + bar;
    assert forall i :: 0 <= i < |bar| ==> bar[i] != '\n';
  }

  /** The footer of `nowplaying`: the time left followed by " left in track", where the
      time reads back as the whole seconds left. */
  function TimeLeftText(left: Duration): (s: string)
    requires left.Valid()
    ensures |s| >= |LEFT_IN_TRACK| && s[|s| - |LEFT_IN_TRACK|..] == LEFT_IN_TRACK
    ensures ParseHhMmSs(s[..|s| - |LEFT_IN_TRACK|]) == Some(left.TotalNanos() / NANOS_PER_SEC)
  {
    var s := HhMmSs(left) + LEFT_IN_TRACK;
    assert s[..|s| - |LEFT_IN_TRACK|] == HhMmSs(left);
    HhMmSsRoundTrip(left);
    s
  }

  /** Whenever `nowplaying` answers, its progress bar exists: the only panic is the time
      left going negative. */
  lemma NowPlayingBarExists(data: TrackData, position: Duration)
    requires position.Valid() && DurationOrZero(data.metadata).Valid()
    requires position.TotalNanos() <= DurationOrZero(data.metadata).TotalNanos()
    ensures ProgressBar(position, DurationOrZero(data.metadata), BAR_LENGTH).Some?
  {
    ShorterHasFewerSecs(DurationOrZero(data.metadata), position);
  }

  // ---------------------------------------------------------------------------
  // The queue listing

  const PAGE_SIZE: nat := 10
  const MISSING_TITLE: string := "~~~~"
  const NOT_IN_CHANNEL: string := "Not in a voice channel"
  const EMPTY_QUEUE: string := "Nothing is in the queue"
  const QUEUE_TITLE: string := "Currently Playing"

  /** The queue listing's line for the track at 0-based index `i`. */
  function QueueLine(i: nat, track: TrackData): string {
    ToDecimal(i) + ". " + track.metadata.title.UnwrapOr(MISSING_TITLE)
  }

  /** A listing line is the index as a numeral, ". ", and the title or "~~~~" without one. */
  lemma QueueLineParts(i: nat, track: TrackData)
    ensures var line := QueueLine(i, track);
      var k := |ToDecimal(i)|;
      && |line| >= k + 2
      && Canonical(line[..k]) && DigitsValue(line[..k]) == i
      && line[k..k + 2] == ". "
      && line[k + 2..] == if track.metadata.title.Some? then track.metadata.title.value else MISSING_TITLE
  {
    ToDecimalValue(i);
    var line := QueueLine(i, track);
    assert line[..|ToDecimal(i)|] == ToDecimal(i);
  }

  /** Every track's line, in queue order. */
  function QueueLines(queue: seq<TrackData>): (lines: seq<string>)
    ensures |lines| == |queue|
    ensures forall i :: 0 <= i < |queue| ==> lines[i] == QueueLine(i, queue[i])
  {
    seq(|queue|, i requires 0 <= i < |queue| => QueueLine(i, queue[i]))
  }

  /** Lines joined by newlines. */
  function JoinLines(lines: seq<string>): string {
    if |lines| == 0 then ""
    else if |lines| == 1 then lines[0]
    else lines[0] + "\n" + JoinLines(lines[1..])
  }

  lemma {:induction false} JoinAppend(a: seq<string>, b: seq<string>)
    requires |a| > 0 && |b| > 0
    ensures JoinLines(a + b) == JoinLines(a) + "\n" + JoinLines(b)
  {
    if |a| > 1 {
      assert (a + b)[1..] == a[1..] + b;
      JoinAppend(a[1..], b);
    } else {
      assert (a + b)[1..] == b;
    }
  }

  /** The number of pages needed for `n` lines, ten to a page: the ceiling of n / 10. */
  function PageCount(n: nat): (c: nat)
    ensures c * PAGE_SIZE >= n
    ensures n > 0 ==> (c - 1) * PAGE_SIZE < n
    ensures n > 0 <==> c > 0
  {
    (n + PAGE_SIZE - 1) / PAGE_SIZE
  }

  /** The reference split: the first ten lines form the first page, and so on. */
  function Chunks(lines: seq<string>): (pages: seq<string>)
    decreases |lines|
  {
    if |lines| <= PAGE_SIZE then (if |lines| == 0 then [] else [JoinLines(lines)])
    else [JoinLines(lines[..PAGE_SIZE])] + Chunks(lines[PAGE_SIZE..])
  }

  lemma {:induction false} ChunkCount(lines: seq<string>)
    ensures |Chunks(lines)| == PageCount(|lines|)
    decreases |lines|
  {
    if |lines| > PAGE_SIZE {
      ChunkCount(lines[PAGE_SIZE..]);
    }
  }

  /** Adding a line at the end either opens a new page (when the last page is full) or
      extends the last page by one line. */
  lemma {:induction false} ChunksSnoc(lines: seq<string>, line: string)
    ensures var c := Chunks(lines);
      if |lines| % PAGE_SIZE == 0 then Chunks(lines + [line]) == c + [line]
      else |c| > 0 && Chunks(lines + [line]) == c[..|c| - 1] + [c[|c| - 1] + "\n" + line]
    decreases |lines|
  {
    var all := lines + [line];
    if |lines| == 0 {
      assert all == [line];
    } else if |lines| < PAGE_SIZE {
      JoinAppend(lines, [line]);
    } else if |lines| == PAGE_SIZE {
      assert all[..PAGE_SIZE] == lines;
      assert all[PAGE_SIZE..] == [line];
    } else {
      var first := JoinLines(lines[..PAGE_SIZE]);
      var rest := lines[PAGE_SIZE..];
      var cr := Chunks(rest);
      ChunksSnoc(rest, line);
      assert all[..PAGE_SIZE] == lines[..PAGE_SIZE];
      assert all[PAGE_SIZE..] == rest + [line];
      assert Chunks(all) == [first] + Chunks(rest + [line]);
      assert Chunks(lines) == [first] + cr;
      assert |rest| % PAGE_SIZE == |lines| % PAGE_SIZE;
      if |rest| % PAGE_SIZE == 0 {
        assert [first] + (cr + [line]) == ([first] + cr) + [line];
      } else {
        var c := [first] + cr;
        assert c[..|c| - 1] == [first] + cr[..|cr| - 1];
        assert c[|c| - 1] == cr[|cr| - 1];
      }
    }
  }

  /** The page-building loop of `queue`: a new page every ten tracks, otherwise the line
      is appended to the last page after a newline. */
  method BuildPages(queue: seq<TrackData>) returns (pages: seq<string>)
    ensures pages == Chunks(QueueLines(queue))
  {
    pages := [];
    var i := 0;
    while i < |queue|
      invariant 0 <= i <= |queue|
      invariant pages == Chunks(QueueLines(queue)[..i])
    {
      var lines := QueueLines(queue);
      var title := queue[i].metadata.title.UnwrapOr(MISSING_TITLE);
      var line := ToDecimal(i) + ". " + title;
      assert lines[..i + 1] == lines[..i] + [line];
      ChunksSnoc(lines[..i], line);
      if i % PAGE_SIZE == 0 {
        pages := pages + [line];
      } else {
        var idx := |pages| - 1;
        pages := pages[idx := pages[idx] + "\n" + line];
      }
      i := i + 1;
    }
    assert QueueLines(queue)[..i] == QueueLines(queue);
  }

  /** The lines shown on page `p`: ten from line 10p on, fewer on the last page. */
  function PageSlice(lines: seq<string>, p: nat): (slice: seq<string>)
    requires p < PageCount(|lines|)
    ensures 1 <= |slice| <= PAGE_SIZE
  {
    var end := if p * PAGE_SIZE + PAGE_SIZE <= |lines| then p * PAGE_SIZE + PAGE_SIZE else |lines|;
    lines[p * PAGE_SIZE..end]
  }

  /** Page `p` holds exactly the lines 10p, 10p + 1, ... of its slice, joined by newlines. */
  lemma {:induction false} PageContents(lines: seq<string>, p: nat)
    requires p < PageCount(|lines|)
    ensures p < |Chunks(lines)| && Chunks(lines)[p] == JoinLines(PageSlice(lines, p))
    decreases p
  {
    ChunkCount(lines);
    if p > 0 {
      assert |lines| > PAGE_SIZE;
      var rest := lines[PAGE_SIZE..];
      assert Chunks(lines) == [JoinLines(lines[..PAGE_SIZE])] + Chunks(rest);
      assert p - 1 < PageCount(|rest|);
      PageContents(rest, p - 1);
      var lo := (p - 1) * PAGE_SIZE;
      var hi := if lo + PAGE_SIZE <= |rest| then lo + PAGE_SIZE else |rest|;
      assert p * PAGE_SIZE == PAGE_SIZE + lo;
      assert PageSlice(rest, p - 1) == rest[lo..hi];
      SliceOfSuffix(lines, PAGE_SIZE, lo, hi);
      assert PageSlice(lines, p) == lines[PAGE_SIZE + lo..PAGE_SIZE + hi];
      assert Chunks(lines)[p] == Chunks(rest)[p - 1];
    } else if |lines| <= PAGE_SIZE {
      assert PageSlice(lines, 0) == lines;
    } else {
      assert PageSlice(lines, 0) == lines[..PAGE_SIZE];
    }
  }

  lemma SliceOfSuffix<T>(s: seq<T>, a: nat, lo: nat, hi: nat)
    requires lo <= hi && a + hi <= |s|
    ensures s[a..][lo..hi] == s[a + lo..a + hi]
  {
  }

  /** The track at index i is listed on page i / 10, as line i % 10 of that page. */
  lemma EntryOnPage(lines: seq<string>, i: nat)
    requires i < |lines|
    ensures i / PAGE_SIZE < PageCount(|lines|) == |Chunks(lines)|
    ensures var slice := PageSlice(lines, i / PAGE_SIZE);
      && Chunks(lines)[i / PAGE_SIZE] == JoinLines(slice)
      && i % PAGE_SIZE < |slice| && slice[i % PAGE_SIZE] == lines[i]
  {
    ChunkCount(lines);
    PageContents(lines, i / PAGE_SIZE);
  }

  /** Reading the pages one after another gives the whole listing, in order. */
  lemma {:induction false} PagesKeepEveryLine(lines: seq<string>)
    ensures JoinLines(Chunks(lines)) == JoinLines(lines)
    decreases |lines|
  {
    if |lines| > PAGE_SIZE {
      var first := lines[..PAGE_SIZE];
      var rest := lines[PAGE_SIZE..];
      ChunkCount(rest);
      JoinAppend([JoinLines(first)], Chunks(rest));
      PagesKeepEveryLine(rest);
      JoinAppend(first, rest);
      assert first + rest == lines;
    }
  }

  /** `queue`: outside a voice channel, or with nothing queued, an ephemeral notice;
      otherwise the listing split into pages and shown through the paginator, which
      answers the button presses `presses` in order. */
  method Queue(ctxId: nat, queue: Option<seq<TrackData>>, presses: seq<string>)
    returns (reply: Reply, updates: seq<Embed>)
    ensures queue.None? ==> reply == SayEphemeral(NOT_IN_CHANNEL) && updates == []
    ensures queue == Some([]) ==> reply == SayEphemeral(EMPTY_QUEUE) && updates == []
    ensures queue.Some? && |queue.value| > 0 ==>
      var pages := Chunks(QueueLines(queue.value));
      && |pages| == PageCount(|queue.value|)
      && reply == Send(Paginate.PageEmbed(QUEUE_TITLE, pages, 0))
      && updates == Paginate.Updates(QUEUE_TITLE, pages, ctxId, 0, presses)
  {
    if queue.None? {
      return SayEphemeral(NOT_IN_CHANNEL), [];
    }
    var tracks := queue.value;
    if |tracks| == 0 {
      return SayEphemeral(EMPTY_QUEUE), [];
    }
    var pages := BuildPages(tracks);
    ChunkCount(QueueLines(tracks));
    var first, finalPage;
    first, updates, finalPage := Paginate.Paginate(ctxId, QUEUE_TITLE, pages, presses);
    reply := Send(first);
  }
}
