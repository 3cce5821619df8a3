/**
  Merging MiPlay media events. Events carry any subset of a track's fields; the
  player keeps the last value of each and decides from the differences when a new
  track has begun, what to fetch, and where playback is.
 */
module MiPlayMedia {

  const INT_MAX := 2147483647
  const QUEUE_LENGTH := 8

  const STOPPED := 0
  const PLAYING := 1
  const TRANSITIONING := 3

  // ----- events and state -----

  datatype Field = Id | AudioId | Title | Artist | Album | Cover | Duration | Position | PlayerState

  /** `changed` says which fields the event carries. */
  datatype Event = Event(
    changed: set<Field>,
    id: string, audioId: string, title: string, artist: string, album: string, cover: string,
    durationMs: int, positionMs: int, playerState: int)

  datatype LyricFetch = LyricFetch(title: string, artist: string, songId: string)

  datatype Track = Track(id: string, audioId: string, title: string, artist: string, album: string, cover: string)

  /** Where playback is: a position, and when it was current if playback goes on. */
  datatype Clock = Clock(durationMs: int, positionMs: int, anchorUs: int, playerState: int)

  /** The requests made so far, and whether a lyric request is still owed. */
  datatype Requests = Requests(refetchPending: bool, lyrics: seq<LyricFetch>, covers: seq<string>)

  datatype Media = Media(track: Track, clock: Clock, requests: Requests)

  const NoTrack := Track("", "", "", "", "", "")
  const Initial := Media(NoTrack, Clock(0, 0, 0, STOPPED), Requests(false, [], []))

  predicate IsText(f: Field) {
    f != Duration && f != Position && f != PlayerState
  }

  function Stored(t: Track, f: Field): string
    requires IsText(f)
  {
    match f
    case Id => t.id
    case AudioId => t.audioId
    case Title => t.title
    case Artist => t.artist
    case Album => t.album
    case _ => t.cover
  }

  /** The text an event brings for a field; empty if it brings none. */
  function Delivered(e: Event, f: Field): string
    requires IsText(f)
  {
    if f !in e.changed then ""
    else
      match f
      case Id => e.id
      case AudioId => e.audioId
      case Title => e.title
      case Artist => e.artist
      case Album => e.album
      case _ => e.cover
  }

  // ----- the position -----

  function ClampMs(x: int): int {
    if x <= 0 then 0 else if x > INT_MAX then INT_MAX else x
  }

  /** Microseconds to milliseconds, truncated towards zero. */
  function ToMs(us: int): int {
    if us >= 0 then us / 1000 else -(-us / 1000)
  }

  function Reported(c: Clock, now: int): int {
    var moving := c.playerState == PLAYING && c.anchorUs > 0;
    var p := if moving then c.positionMs + ToMs(now - c.anchorUs) else c.positionMs;
    ClampMs(if c.durationMs > 0 && p > c.durationMs then c.durationMs else p)
  }

  // ----- one event -----

  predicate Differs(t: Track, e: Event, f: Field)
    requires IsText(f)
  {
    Delivered(e, f) != "" && Stored(t, f) != Delivered(e, f)
  }

  predicate DurationDiffers(c: Clock, e: Event) {
    Duration in e.changed && e.durationMs > 0 && c.durationMs > 0 && ClampMs(e.durationMs) != c.durationMs
  }

  /** The event begins a new track. A cover or a duration must replace another one to count. */
  predicate TrackChange(m: Media, e: Event) {
    || Differs(m.track, e, Id) || Differs(m.track, e, AudioId) || Differs(m.track, e, Title)
    || (Differs(m.track, e, Cover) && m.track.cover != "")
    || DurationDiffers(m.clock, e)
  }

  function Keep(stored: string, delivered: string): string {
    if delivered != "" then delivered else stored
  }

  /** The texts an event brings replace the stored ones. */
  function StoreTexts(t: Track, e: Event): Track {
    Track(Keep(t.id, Delivered(e, Id)), Keep(t.audioId, Delivered(e, AudioId)),
          Keep(t.title, Delivered(e, Title)), Keep(t.artist, Delivered(e, Artist)),
          Keep(t.album, Delivered(e, Album)), Keep(t.cover, Delivered(e, Cover)))
  }

  function StoreTimes(c: Clock, e: Event, now: int): Clock {
    Clock(
      if Duration in e.changed && e.durationMs > 0 then ClampMs(e.durationMs) else c.durationMs,
      if Position in e.changed then ClampMs(e.positionMs) else c.positionMs,
      if Position in e.changed && c.playerState == PLAYING then now else c.anchorUs,
      c.playerState)
  }

  /** A valid player state is adopted; leaving PLAYING freezes the position. */
  function StoreState(c: Clock, e: Event, now: int): Clock {
    if PlayerState !in e.changed || !(STOPPED <= e.playerState <= TRANSITIONING) then c
    else if e.playerState == PLAYING then Clock(c.durationMs, c.positionMs, now, PLAYING)
    else Clock(c.durationMs, if Position in e.changed then c.positionMs else Reported(c, now), 0, e.playerState)
  }

  function ClearTimes(c: Clock): Clock {
    Clock(0, 0, 0, c.playerState)
  }

  function ConsumeTimes(c: Clock, e: Event, newTrack: bool, now: int): Clock {
    var c1 := StoreState(StoreTimes(if newTrack then ClearTimes(c) else c, e, now), e, now);
    if newTrack && Position !in e.changed && PlayerState !in e.changed
    then Clock(c1.durationMs, 0, if c1.playerState == PLAYING then now else 0, c1.playerState)
    else c1
  }

  function SongId(t: Track): string {
    if t.id != "" then t.id else t.audioId
  }

  /** A cover that is not the stored one is asked for. */
  function AskCover(covers: seq<string>, before: Track, e: Event): seq<string> {
    if Differs(before, e, Cover) then covers + [Delivered(e, Cover)] else covers
  }

  /** A lyric request is made once there is a title, for a new track or if one is owed. */
  function AskLyrics(r: Requests, t: Track, newTrack: bool): Requests {
    if t.title != "" && (newTrack || r.refetchPending)
    then Requests(false, r.lyrics + [LyricFetch(t.title, t.artist, SongId(t))], r.covers)
    else Requests(newTrack || r.refetchPending, r.lyrics, r.covers)
  }

  function Consume(m: Media, e: Event, now: int): Media {
    var newTrack := TrackChange(m, e);
    var before := if newTrack then NoTrack else m.track;
    var track := StoreTexts(before, e);
    var covers := AskCover(m.requests.covers, before, e);
    Media(track, ConsumeTimes(m.clock, e, newTrack, now),
          AskLyrics(Requests(m.requests.refetchPending, m.requests.lyrics, covers), track, newTrack))
  }

  function ResetSession(m: Media): Media {
    Media(NoTrack, Clock(0, 0, 0, STOPPED), Requests(true, m.requests.lyrics, m.requests.covers))
  }

  // ----- histories -----

  /**
    What can happen to the stored track: an event is consumed, the session is reset,
    or another callback writes the playback fields, in any way.
   */
  datatype Input =
    | Consumed(e: Event, now: int)
    | Reset
    | Playback(clock: Clock)

  function Apply(m: Media, i: Input): Media {
    match i
    case Consumed(e, now) => Consume(m, e, now)
    case Reset => ResetSession(m)
    case Playback(clock) => Media(m.track, clock, m.requests)
  }

  function Replay(h: seq<Input>): Media {
    if h == [] then Initial else Apply(Replay(h[..|h| - 1]), h[|h| - 1])
  }

  /** Input `i` begins a new track or a new session. */
  predicate Boundary(h: seq<Input>, i: nat)
    requires i < |h|
  {
    match h[i]
    case Consumed(e, _) => TrackChange(Replay(h[..i]), e)
    case Reset => true
    case Playback(_) => false
  }

  function Brought(i: Input, f: Field): string
    requires IsText(f)
  {
    if i.Consumed? then Delivered(i.e, f) else ""
  }

  /** Input `k` belongs to the current track: no boundary comes after it. */
  ghost predicate Current(h: seq<Input>, k: nat)
    requires k < |h|
  {
    forall j :: k < j < |h| ==> !Boundary(h, j)
  }

  // ----- no mixing of tracks -----

  /** One event: its own non-empty texts, and otherwise those stored if the track goes on. */
  lemma ConsumeText(m: Media, e: Event, now: int, f: Field)
    requires IsText(f)
    ensures Stored(Consume(m, e, now).track, f) ==
              if Delivered(e, f) != "" then Delivered(e, f)
              else if TrackChange(m, e) then "" else Stored(m.track, f)
  {
    hide ConsumeTimes;
    hide AskLyrics;
    hide TrackChange;
  }

  /** `v` is the last non-empty text of the current track, or empty if there was none. */
  ghost predicate LastText(h: seq<Input>, f: Field, v: string)
    requires IsText(f)
  {
    if v == "" then forall k :: 0 <= k < |h| && Current(h, k) ==> Brought(h[k], f) == ""
    else exists k :: 0 <= k < |h| && Current(h, k) && Brought(h[k], f) == v
                     && forall j :: k < j < |h| ==> Brought(h[j], f) == ""
  }

  lemma BoundaryOfPrefix(h: seq<Input>, j: nat)
    requires j + 1 < |h|
    ensures Boundary(h, j) == Boundary(h[..|h| - 1], j)
  {
    assert h[..|h| - 1][..j] == h[..j];
  }

  lemma CurrentOfPrefix(h: seq<Input>, k: nat)
    requires k + 1 < |h|
    ensures Current(h, k) <==> Current(h[..|h| - 1], k) && !Boundary(h, |h| - 1)
  {
    hide Boundary;
    var init := h[..|h| - 1];
    forall j | k < j < |h| - 1
      ensures Boundary(h, j) == Boundary(init, j)
    {
      BoundaryOfPrefix(h, j);
    }
    assert Current(h, k) ==> !Boundary(h, |h| - 1);
  }

  function TextOf(h: seq<Input>, f: Field): string
    requires IsText(f)
  {
    Stored(Replay(h).track, f)
  }

  /** What the last input of a history does to a text. */
  lemma ReplayText(h: seq<Input>, f: Field)
    requires IsText(f) && h != []
    ensures var n := |h| - 1;
            TextOf(h, f) == if Brought(h[n], f) != "" then Brought(h[n], f)
                            else if Boundary(h, n) then "" else TextOf(h[..n], f)
  {
    hide Consume;
    var n := |h| - 1;
    if h[n].Consumed? {
      ConsumeText(Replay(h[..n]), h[n].e, h[n].now, f);
    }
  }

  /** The last input decides alone if it brings a text; otherwise a boundary empties it or it stays. */
  lemma LastTextExtends(h: seq<Input>, f: Field, v: string)
    requires IsText(f) && h != [] && LastText(h[..|h| - 1], f, v)
    requires Brought(h[|h| - 1], f) == "" && !Boundary(h, |h| - 1)
    ensures LastText(h, f, v)
  {
    hide Boundary;
    hide Brought;
    hide Current;
    var n := |h| - 1;
    var init := h[..n];
    if v == "" {
      forall k | 0 <= k < |h| && Current(h, k)
        ensures Brought(h[k], f) == ""
      {
        if k < n {
          CurrentOfPrefix(h, k);
          assert Brought(init[k], f) == "";
        }
      }
    } else {
      var k :| 0 <= k < |init| && Current(init, k) && Brought(init[k], f) == v
               && forall j :: k < j < |init| ==> Brought(init[j], f) == "";
      CurrentOfPrefix(h, k);
      assert Current(h, k) && Brought(h[k], f) == v;
      forall j | k < j < |h|
        ensures Brought(h[j], f) == ""
      {
        assert j < n ==> Brought(init[j], f) == "";
      }
    }
  }

  lemma LastTextRestarts(h: seq<Input>, f: Field)
    requires IsText(f) && h != []
    requires Brought(h[|h| - 1], f) != "" || Boundary(h, |h| - 1)
    ensures LastText(h, f, Brought(h[|h| - 1], f))
  {
    hide Boundary;
    hide Brought;
    assert Current(h, |h| - 1);
  }

  /**
    After any history, each stored text is the last non-empty one delivered since the
    most recent track change (that event included) or session reset.
   */
  lemma {:induction false} NoMixing(h: seq<Input>, f: Field)
    requires IsText(f)
    ensures LastText(h, f, TextOf(h, f))
    decreases |h|
  {
    hide TextOf;
    hide Boundary;
    hide Brought;
    if h == [] {
      EmptyHistory(f);
      return;
    }
    var n := |h| - 1;
    ReplayText(h, f);
    if Brought(h[n], f) == "" && !Boundary(h, n) {
      NoMixing(h[..n], f);
      LastTextExtends(h, f, TextOf(h[..n], f));
    } else {
      LastTextRestarts(h, f);
    }
  }

  lemma EmptyHistory(f: Field)
    requires IsText(f)
    ensures TextOf([], f) == ""
  {
  }

  // ----- the same, on the fields of event and state -----

  /**
    The event is about another track: it brings another identity or title than the stored one, or
    replaces a stored cover or a stored duration by another.
   */
  predicate AnotherTrack(m: Media, e: Event) {
    || (Id in e.changed && e.id != "" && e.id != m.track.id)
    || (AudioId in e.changed && e.audioId != "" && e.audioId != m.track.audioId)
    || (Title in e.changed && e.title != "" && e.title != m.track.title)
    || (Cover in e.changed && e.cover != "" && m.track.cover != "" && e.cover != m.track.cover)
    || (Duration in e.changed && e.durationMs > 0 && m.clock.durationMs > 0
        && m.clock.durationMs != (if e.durationMs < 2_147_483_647 then e.durationMs else 2_147_483_647))
  }

  lemma ChangeIsAnother(m: Media, e: Event)
    ensures TrackChange(m, e) <==> AnotherTrack(m, e)
  {
  }

  /** Another track begins with nothing but the texts of its event; the same one keeps what the event does not bring. */
  lemma TrackAfter(m: Media, e: Event, now: int)
    ensures AnotherTrack(m, e) ==>
              Consume(m, e, now).track ==
                Track(if Id in e.changed then e.id else "", if AudioId in e.changed then e.audioId else "",
                      if Title in e.changed then e.title else "", if Artist in e.changed then e.artist else "",
                      if Album in e.changed then e.album else "", if Cover in e.changed then e.cover else "")
    ensures !AnotherTrack(m, e) ==>
              Consume(m, e, now).track ==
                Track(if Id in e.changed && e.id != "" then e.id else m.track.id,
                      if AudioId in e.changed && e.audioId != "" then e.audioId else m.track.audioId,
                      if Title in e.changed && e.title != "" then e.title else m.track.title,
                      if Artist in e.changed && e.artist != "" then e.artist else m.track.artist,
                      if Album in e.changed && e.album != "" then e.album else m.track.album,
                      if Cover in e.changed && e.cover != "" then e.cover else m.track.cover)
  {
    ChangeIsAnother(m, e);
    hide TrackChange;
    hide AnotherTrack;
    hide ConsumeTimes;
    hide AskLyrics;
  }

  /** What is asked for: the lyrics of another track that has a title, and a cover that is not the stored one of the same track. */
  lemma AskedAfter(m: Media, e: Event, now: int)
    requires LyricsOk(m)
    ensures Consume(m, e, now).requests.lyrics ==
              if AnotherTrack(m, e) && Title in e.changed && e.title != ""
              then m.requests.lyrics
                   + [LyricFetch(e.title, if Artist in e.changed then e.artist else "",
                                 if Id in e.changed && e.id != "" then e.id
                                 else if AudioId in e.changed then e.audioId else "")]
              else m.requests.lyrics
    ensures Consume(m, e, now).requests.covers ==
              if Cover in e.changed && e.cover != "" && (AnotherTrack(m, e) || e.cover != m.track.cover)
              then m.requests.covers + [e.cover]
              else m.requests.covers
    ensures Consume(m, e, now).requests.refetchPending <==>
              (AnotherTrack(m, e) || m.requests.refetchPending) && Consume(m, e, now).track.title == ""
  {
    ChangeIsAnother(m, e);
    ConsumeLyrics(m, e, now);
    TrackAfter(m, e, now);
    hide LyricsOk;
    hide TrackChange;
    hide AnotherTrack;
    hide ConsumeTimes;
  }

  /** The player state is one of the four that there are, or stays; the duration is a positive one, or stays, or is unknown for another track. */
  lemma TimesAfter(m: Media, e: Event, now: int)
    ensures var c := Consume(m, e, now).clock;
            && c.playerState == (if PlayerState in e.changed && 0 <= e.playerState <= 3 then e.playerState
                                 else m.clock.playerState)
            && c.durationMs == (if Duration in e.changed && e.durationMs > 0
                                then (if e.durationMs < 2_147_483_647 then e.durationMs else 2_147_483_647)
                                else if AnotherTrack(m, e) then 0 else m.clock.durationMs)
  {
    ChangeIsAnother(m, e);
    hide TrackChange;
    hide AnotherTrack;
    hide StoreTexts;
    hide AskLyrics;
  }

  /** The shown position advances with time while playing, up to the duration if it is known. */
  lemma PositionAdvances(c: Clock, now: int)
    requires 0 <= c.positionMs <= 2_147_483_647 && 0 <= c.durationMs <= 2_147_483_647 && c.anchorUs <= now
    ensures var most := if c.durationMs > 0 then c.durationMs else 2_147_483_647;
            var moved := if c.playerState == 1 && c.anchorUs > 0 then c.positionMs + (now - c.anchorUs) / 1000
                         else c.positionMs;
            Reported(c, now) == if moved < most then moved else most
  {
  }

  /** The event of an input brings a text for field `f`. */
  predicate Brings(i: Input, f: Field, v: string)
    requires IsText(f)
  {
    && i.Consumed? && f in i.e.changed
    && v == match f
            case Id => i.e.id
            case AudioId => i.e.audioId
            case Title => i.e.title
            case Artist => i.e.artist
            case Album => i.e.album
            case _ => i.e.cover
  }

  /** Identity `g` has been the present one after every input from `k` on. */
  predicate SameSince(h: seq<Input>, k: nat, g: Field)
    requires IsText(g)
  {
    forall j :: k < j <= |h| ==> Stored(Replay(h[..j]).track, g) == Stored(Replay(h).track, g)
  }

  /**
    Every stored text was delivered while the stored id, audio id and title were the present ones:
    no text outlives the song it came with.
   */
  lemma {:induction false} SameSong(h: seq<Input>, f: Field, g: Field) returns (k: nat)
    requires IsText(f) && IsText(g) && (g == Id || g == AudioId || g == Title)
    requires Stored(Replay(h).track, f) != ""
    ensures k < |h| && Brings(h[k], f, Stored(Replay(h).track, f)) && SameSince(h, k, g)
    decreases |h|
  {
    hide *;
    if h == [] {
      EmptyHistory(f);
      TextIs(h, f);
      assert false;
    }
    var n := |h| - 1;
    assert h[..|h|] == h;
    LastInput(h, f, g);
    if Brings(h[n], f, Stored(Replay(h).track, f)) {
      k := n;
      SinceLast(h, g);
    } else {
      k := SameSong(h[..n], f, g);
      assert h[..n][k] == h[k];
      SinceBefore(h, k, g);
    }
  }

  lemma TextIs(h: seq<Input>, f: Field)
    requires IsText(f)
    ensures TextOf(h, f) == Stored(Replay(h).track, f)
  {
  }

  /** A stored text is from the last input, or was there before and the identities have not changed. */
  lemma LastInput(h: seq<Input>, f: Field, g: Field)
    requires IsText(f) && (g == Id || g == AudioId || g == Title) && h != [] && Stored(Replay(h).track, f) != ""
    ensures var n := |h| - 1;
            || Brings(h[n], f, Stored(Replay(h).track, f))
            || (Stored(Replay(h[..n]).track, f) == Stored(Replay(h).track, f)
                && Stored(Replay(h[..n]).track, g) == Stored(Replay(h).track, g))
  {
    var n := |h| - 1;
    if h[n].Consumed? {
      TrackAfter(Replay(h[..n]), h[n].e, h[n].now);
    }
    hide Consume;
  }

  lemma SinceLast(h: seq<Input>, g: Field)
    requires IsText(g) && h != []
    ensures SameSince(h, |h| - 1, g)
  {
    assert h[..|h|] == h;
  }

  lemma SinceBefore(h: seq<Input>, k: nat, g: Field)
    requires IsText(g) && k + 1 < |h| && SameSince(h[..|h| - 1], k, g)
    requires Stored(Replay(h[..|h| - 1]).track, g) == Stored(Replay(h).track, g)
    ensures SameSince(h, k, g)
  {
    hide Replay;
    hide Stored;
    assert h[..|h|] == h;
    forall j | k < j < |h|
      ensures Stored(Replay(h[..j]).track, g) == Stored(Replay(h).track, g)
    {
      assert h[..|h| - 1][..j] == h[..j];
    }
  }

  // ----- lyrics follow the title -----

  /** The stored title has been asked for, and nothing is left to ask. */
  predicate LyricsOk(m: Media) {
    var r := m.requests;
    m.track.title != "" ==> !r.refetchPending && r.lyrics != [] && r.lyrics[|r.lyrics| - 1].title == m.track.title
  }

  /** A track change with a title makes exactly one request, for that title; nothing else makes any. */
  lemma ConsumeLyrics(m: Media, e: Event, now: int)
    requires LyricsOk(m)
    ensures LyricsOk(Consume(m, e, now))
    ensures var m' := Consume(m, e, now);
            m'.requests.lyrics ==
              if TrackChange(m, e) && Delivered(e, Title) != ""
              then m.requests.lyrics + [LyricFetch(Delivered(e, Title), Delivered(e, Artist), SongId(m'.track))]
              else m.requests.lyrics
  {
    ConsumeText(m, e, now, Title);
    ConsumeText(m, e, now, Artist);
    hide ConsumeTimes;
    hide DurationDiffers;
    assert Differs(m.track, e, Title) ==> TrackChange(m, e);
  }

  lemma {:induction false} LyricsAlwaysOk(h: seq<Input>)
    ensures LyricsOk(Replay(h))
    decreases |h|
  {
    hide Consume;
    if h != [] {
      LyricsAlwaysOk(h[..|h| - 1]);
      var i := h[|h| - 1];
      if i.Consumed? {
        ConsumeLyrics(Replay(h[..|h| - 1]), i.e, i.now);
      }
    }
  }

  /** The track changes of a history that carry a title. */
  function TitledChanges(h: seq<Input>): nat {
    if h == [] then 0
    else
      var n := |h| - 1;
      TitledChanges(h[..n]) + if Boundary(h, n) && Brought(h[n], Title) != "" then 1 else 0
  }

  /** A history makes as many lyric requests as it has track changes with a title. */
  lemma {:induction false} LyricRequests(h: seq<Input>)
    ensures |Replay(h).requests.lyrics| == TitledChanges(h)
    decreases |h|
  {
    hide Consume;
    hide TrackChange;
    if h != [] {
      var n := |h| - 1;
      LyricRequests(h[..n]);
      LyricsAlwaysOk(h[..n]);
      if h[n].Consumed? {
        ConsumeLyrics(Replay(h[..n]), h[n].e, h[n].now);
      }
    }
  }

  /**
    The deferred request never happens: an event that stores a title where none was
    is itself a track change. So an event that is no track change never asks.
   */
  lemma DeferredRequestIsDead(h: seq<Input>, e: Event, now: int)
    requires !TrackChange(Replay(h), e)
    ensures Consume(Replay(h), e, now).requests.lyrics == Replay(h).requests.lyrics
  {
    LyricsAlwaysOk(h);
    ConsumeLyrics(Replay(h), e, now);
  }

  /** The artist of the last lyric request. */
  function LastArtist(m: Media): string {
    if m.requests.lyrics == [] then "" else m.requests.lyrics[|m.requests.lyrics| - 1].artist
  }

  /** The last request is for the stored artist. */
  predicate ArtistAsked(m: Media) {
    m.track.title != "" ==> LastArtist(m) == m.track.artist
  }

  /**
    After an event the last request is for the stored artist, exactly if there is no title, the
    event is a track change, or the artist stored after it is still the one asked for before.
   */
  lemma ArtistFollows(m: Media, e: Event, now: int)
    requires LyricsOk(m)
    ensures var m' := Consume(m, e, now);
            ArtistAsked(m') <==>
            || m'.track.title == "" || TrackChange(m, e)
            || Keep(m.track.artist, Delivered(e, Artist)) == LastArtist(m)
  {
    ConsumeLyrics(m, e, now);
    ConsumeText(m, e, now, Title);
    ConsumeText(m, e, now, Artist);
    hide TrackChange;
    hide Consume;
    hide Delivered;
  }

  /** An artist that comes after the title is stored, and never asked for. */
  lemma LateArtist()
    ensures var m := Replay([Consumed(Start("a"), 1)]);
            var e := Event({Artist}, "", "", "", "x", "", "", 0, 0, 0);
            var m' := Consume(m, e, 2);
            && m'.track.artist == "x" && m'.requests.lyrics == [LyricFetch("a", "", "")] && !ArtistAsked(m')
  {
    AfterStart("a");
    var m := Replay([Consumed(Start("a"), 1)]);
    var e := Event({Artist}, "", "", "", "x", "", "", 0, 0, 0);
    assert m.requests.lyrics == [LyricFetch("a", "", "")];
    assert !TrackChange(m, e);
  }

  /** While a title is stored, the last request carries the title and artist of the event that began the current track. */
  lemma {:induction false} LastRequest(h: seq<Input>) returns (j: nat)
    requires TextOf(h, Title) != ""
    ensures j < |h| && Boundary(h, j) && Current(h, j)
    ensures var r := Replay(h).requests.lyrics;
            r != [] && r[|r| - 1].title == Brought(h[j], Title) == TextOf(h, Title)
            && r[|r| - 1].artist == Brought(h[j], Artist)
    decreases |h|
  {
    hide *;
    if h == [] {
      EmptyHistory(Title);
      assert false;
    }
    var n := |h| - 1;
    RequestStep(h);
    if Boundary(h, n) {
      LastIsCurrent(h);
      j := n;
    } else {
      j := LastRequest(h[..n]);
      BoundaryOfPrefix(h, j);
      CurrentOfPrefix(h, j);
    }
  }

  lemma LastIsCurrent(h: seq<Input>)
    requires h != []
    ensures Current(h, |h| - 1)
  {
  }

  /** What the last input of a history that leaves a title does to title and requests. */
  lemma RequestStep(h: seq<Input>)
    requires h != [] && TextOf(h, Title) != ""
    ensures var n := |h| - 1;
            var r := Replay(h).requests.lyrics;
            if Boundary(h, n)
            then r != [] && r[|r| - 1].title == Brought(h[n], Title) == TextOf(h, Title)
                 && r[|r| - 1].artist == Brought(h[n], Artist)
            else r == Replay(h[..n]).requests.lyrics && TextOf(h[..n], Title) == TextOf(h, Title)
  {
    var n := |h| - 1;
    var m := Replay(h[..n]);
    LyricsAlwaysOk(h[..n]);
    ReplayText(h, Title);
    if h[n].Consumed? {
      ConsumeLyrics(m, h[n].e, h[n].now);
      TitleIsChange(m, h[n].e);
    }
    hide Consume;
    hide TrackChange;
    hide LyricsOk;
  }

  /** A delivered title that is not the stored one begins a track. */
  lemma TitleIsChange(m: Media, e: Event)
    ensures Delivered(e, Title) != "" && !TrackChange(m, e) ==> Delivered(e, Title) == m.track.title
  {
    assert Differs(m.track, e, Title) ==> TrackChange(m, e);
  }

  /** The same event again is no track change, requests nothing and changes no text. */
  lemma RedeliveryIsHarmless(m: Media, e: Event, now: int, later: int)
    ensures var m1 := Consume(m, e, now);
            var m2 := Consume(m1, e, later);
            !TrackChange(m1, e) && m2.requests == m1.requests && m2.track == m1.track
  {
    var m1 := Consume(m, e, now);
    forall f | IsText(f)
      ensures Delivered(e, f) != "" ==> Stored(m1.track, f) == Delivered(e, f)
    {
      ConsumeText(m, e, now, f);
    }
    DurationStored(m, e, now);
    assert !TrackChange(m1, e);
    hide ConsumeTimes;
    hide TrackChange;
    assert StoreTexts(m1.track, e) == m1.track by {
      assert Keep(m1.track.id, Delivered(e, Id)) == Stored(m1.track, Id);
      assert Keep(m1.track.audioId, Delivered(e, AudioId)) == Stored(m1.track, AudioId);
      assert Keep(m1.track.title, Delivered(e, Title)) == Stored(m1.track, Title);
      assert Keep(m1.track.artist, Delivered(e, Artist)) == Stored(m1.track, Artist);
      assert Keep(m1.track.album, Delivered(e, Album)) == Stored(m1.track, Album);
      assert Keep(m1.track.cover, Delivered(e, Cover)) == Stored(m1.track, Cover);
    }
    assert m1.track.title != "" ==> !m1.requests.refetchPending;
  }

  lemma DurationStored(m: Media, e: Event, now: int)
    ensures Duration in e.changed && e.durationMs > 0 ==>
              Consume(m, e, now).clock.durationMs == ClampMs(e.durationMs)
  {
    hide TrackChange;
  }

  /** The stored cover is the one last asked for. */
  predicate CoverOk(m: Media) {
    var covers := m.requests.covers;
    m.track.cover != "" ==> covers != [] && covers[|covers| - 1] == m.track.cover
  }

  lemma {:induction false} CoversAlwaysOk(h: seq<Input>)
    ensures CoverOk(Replay(h))
    decreases |h|
  {
    hide TrackChange;
    hide ConsumeTimes;
    if h != [] {
      CoversAlwaysOk(h[..|h| - 1]);
    }
  }

  // ----- the position -----

  /** An event that only reports a state other than PLAYING leaves the position where it was reported. */
  lemma StopFreezesPosition(m: Media, e: Event, now: int, later: int)
    requires e.changed == {PlayerState} && STOPPED <= e.playerState <= TRANSITIONING && e.playerState != PLAYING
    ensures Reported(Consume(m, e, now).clock, later) == Reported(m.clock, now)
  {
  }

  function AtMost(x: int, limit: int): int {
    if limit > 0 && x > limit then limit else x
  }

  /** Positions and durations are ints, and not negative. */
  predicate InIntRange(c: Clock) {
    0 <= c.positionMs <= INT_MAX && 0 <= c.durationMs <= INT_MAX
  }

  lemma ConsumeInIntRange(m: Media, e: Event, now: int)
    requires InIntRange(m.clock)
    ensures InIntRange(Consume(m, e, now).clock)
  {
    hide TrackChange;
    hide StoreTexts;
    hide AskLyrics;
  }

  /** PLAYING is reported while playing, and the position has moved since it was stored. */
  predicate Rewinds(c: Clock, e: Event, now: int) {
    && PlayerState in e.changed && e.playerState == PLAYING
    && c.playerState == PLAYING && c.anchorUs > 0 && now - c.anchorUs >= 1000
    && c.positionMs < INT_MAX && (c.durationMs > 0 ==> c.positionMs < c.durationMs)
    && (Learns(c, e) ==> c.positionMs < ClampMs(e.durationMs))
  }

  /** The event brings a duration where none was stored. */
  predicate Learns(c: Clock, e: Event) {
    Duration in e.changed && e.durationMs > 0 && c.durationMs == 0
  }

  /** That duration is shorter than what has been played. */
  predicate Cuts(c: Clock, e: Event, now: int) {
    Learns(c, e) && ClampMs(e.durationMs) < Reported(c, now)
  }

  /**
    An event without a position that is no track change keeps the reported position, exactly
    when it neither reports PLAYING again nor brings a duration that is already over. In the
    first case the position goes back to where it was when last stored.
   */
  lemma PositionKept(m: Media, e: Event, now: int)
    requires InIntRange(m.clock) && m.clock.anchorUs <= now
    requires Position !in e.changed && !TrackChange(m, e)
    ensures var c := Consume(m, e, now).clock;
            && (Reported(c, now) == Reported(m.clock, now) <==> !Rewinds(m.clock, e, now) && !Cuts(m.clock, e, now))
            && (Rewinds(m.clock, e, now) ==> Reported(c, now) == m.clock.positionMs < Reported(m.clock, now))
            && (Cuts(m.clock, e, now) && !Rewinds(m.clock, e, now) ==> Reported(c, now) == AtMost(Reported(m.clock, now), c.durationMs))
  {
    hide StoreTexts;
    hide AskLyrics;
    var c := m.clock;
    assert !DurationDiffers(c, e);
    hide TrackChange;
    assert Consume(m, e, now).clock == ConsumeTimes(c, e, false, now);
    if Duration in e.changed && e.durationMs > 0 && c.durationMs > 0 {
      assert ClampMs(e.durationMs) == c.durationMs;
    }
  }

  function Bare(state: int): Event {
    Event({PlayerState}, "", "", "", "", "", "", 0, 0, state)
  }

  function Start(title: string): Event {
    Event({Title, Position, PlayerState}, "", "", title, "", "", "", 0, 0, PLAYING)
  }

  /** The smallest history on which a rewind shows: after a minute of play, a second report of PLAYING shows 0. */
  lemma MinuteRewound()
    ensures var m := Replay([Consumed(Start("a"), 1)]);
            var later := 60_000_001;
            && !TrackChange(m, Bare(PLAYING)) && Rewinds(m.clock, Bare(PLAYING), later)
            && Reported(m.clock, later) == 60_000
            && Reported(Consume(m, Bare(PLAYING), later).clock, later) == 0
  {
    AfterStart("a");
  }

  lemma AfterStart(title: string)
    requires title != ""
    ensures var m := Replay([Consumed(Start(title), 1)]);
            m.clock == Clock(0, 0, 1, PLAYING) && m.track == NoTrack.(title := title)
  {
    var h := [Consumed(Start(title), 1)];
    assert h[..0] == [];
    assert Replay(h[..0]) == Initial;
    assert Differs(NoTrack, Start(title), Title);
  }

  /** Right after an event the position is the delivered one, or 0 on a new track that brings none. */
  lemma PositionAfterEvent(m: Media, e: Event, now: int)
    ensures var c := Consume(m, e, now).clock;
            && (Position in e.changed ==> Reported(c, now) == AtMost(ClampMs(e.positionMs), c.durationMs))
            && (Position !in e.changed && TrackChange(m, e) ==> Reported(c, now) == 0)
  {
    hide TrackChange;
    hide StoreTexts;
    hide AskLyrics;
  }

  /** Time runs exactly while the state is playing. */
  predicate Running(c: Clock) {
    c.anchorUs >= 0 && (c.playerState == PLAYING <==> c.anchorUs > 0)
  }

  /** While playing, a new track without a position comes with a player state that is not valid. */
  predicate Stalls(m: Media, e: Event) {
    && m.clock.playerState == PLAYING && TrackChange(m, e)
    && Position !in e.changed && PlayerState in e.changed && !(STOPPED <= e.playerState <= TRANSITIONING)
  }

  /** An event keeps clock and state together exactly when it is none of those; those stop the clock. */
  lemma ClockRunsWhilePlaying(m: Media, e: Event, now: int)
    requires Running(m.clock) && now > 0
    ensures Running(Consume(m, e, now).clock) <==> !Stalls(m, e)
    ensures Stalls(m, e) ==> forall later :: Reported(Consume(m, e, now).clock, later) == 0
  {
    hide TrackChange;
    hide StoreTexts;
    hide AskLyrics;
  }

  /** A history and an event that stop the clock: a new title with a state that is not valid. */
  lemma StalledClock()
    ensures var m := Replay([Consumed(Start("a"), 1)]);
            var e := Event({Title, PlayerState}, "", "", "b", "", "", "", 0, 0, -1);
            && Running(m.clock) && Stalls(m, e)
            && Consume(m, e, 2).clock.playerState == PLAYING
            && Reported(Consume(m, e, 2).clock, 60_000_002) == 0
  {
    AfterStart("a");
    var m := Replay([Consumed(Start("a"), 1)]);
    var e := Event({Title, PlayerState}, "", "", "b", "", "", "", 0, 0, -1);
    assert Differs(m.track, e, Title);
  }

  // ----- the player -----

  class Player {
    var track: Track
    var clock: Clock
    /** The requests made, in order. */
    var requests: Requests
    var resetPending: bool
    var connected: bool
    var queue: seq<Event>
    /** Everything that has happened to the stored track. */
    ghost var history: seq<Input>

    function Abs(): Media
      reads this
    {
      Media(track, clock, requests)
    }

    ghost predicate Valid()
      reads this
    {
      Abs() == Replay(history) && |queue| <= QUEUE_LENGTH
    }

    constructor ()
      ensures Valid() && history == [] && queue == [] && !resetPending && !connected
    {
      track := NoTrack;
      clock := Clock(0, 0, 0, STOPPED);
      requests := Requests(false, [], []);
      resetPending, connected := false, false;
      queue, history := [], [];
    }

    /** An event from the network task: when the queue is full the oldest one makes room. */
    method OnMedia(e: Event)
      requires Valid()
      modifies this`queue
      ensures Valid()
      ensures queue == (if |old(queue)| < 8 then old(queue) else old(queue)[1..]) + [e]
    {
      if |queue| == QUEUE_LENGTH {
        queue := queue[1..];
      }
      queue := queue + [e];
    }

    /** The phone connects or disconnects: the next drain begins a new session. */
    method OnConnected(now: bool)
      requires Valid()
      modifies this
      ensures Valid() && connected == now && resetPending && queue == []
      ensures clock == Clock(0, 0, 0, 0) && track == old(track) && requests == old(requests)
      ensures history == old(history) + [Playback(Clock(0, 0, 0, STOPPED))]
    {
      hide Consume;
      hide Replay;
      connected := now;
      clock := Clock(0, 0, 0, STOPPED);
      resetPending := true;
      queue := [];
      Extend(Playback(clock));
    }

    /** Next and previous clear the playback fields at once; the texts stay. */
    method OnSkip()
      requires Valid()
      modifies this
      ensures Valid() && history == old(history) + [Playback(clock)]
      ensures clock == Clock(0, 0, 0, 3) && track == old(track) && requests == old(requests)
      ensures queue == old(queue) && connected == old(connected) && resetPending == old(resetPending)
    {
      hide Consume;
      hide Replay;
      clock := Clock(0, 0, 0, TRANSITIONING);
      Extend(Playback(clock));
    }

    ghost method Extend(i: Input)
      requires Abs() == Apply(Replay(history), i)
      modifies this`history
      ensures history == old(history) + [i] && Abs() == Replay(history)
    {
      hide Consume;
      assert (history + [i])[..|history|] == history;
      history := history + [i];
    }

    method ResetLocked()
      requires Valid()
      modifies this
      ensures Valid() && history == old(history) + [Reset]
      ensures track == Track("", "", "", "", "", "") && clock == Clock(0, 0, 0, 0)
      ensures requests == old(requests).(refetchPending := true)
      ensures queue == old(queue) && connected == old(connected) && resetPending == old(resetPending)
    {
      hide Consume;
      hide Replay;
      track := NoTrack;
      clock := Clock(0, 0, 0, STOPPED);
      requests := requests.(refetchPending := true);
      Extend(Reset);
    }

    /** Drain the queue in order. Disconnected, its events are dropped unread. */
    method ConsumePending(now: int)
      requires Valid()
      modifies this
      ensures Valid() && queue == [] && !resetPending && connected == old(connected)
      ensures history == old(history) + (if old(resetPending) then [Reset] else [])
                         + (if connected then Inputs(old(queue), now) else [])
    {
      hide Replay;
      hide Apply;
      if resetPending {
        resetPending := false;
        ResetLocked();
      }
      if !connected {
        while queue != []
          invariant Valid() && !resetPending && !connected
          invariant history == old(history) + if old(resetPending) then [Reset] else []
        {
          queue := queue[1..];
        }
        return;
      }
      ghost var todo, start := queue, history;
      while queue != []
        invariant Valid() && !resetPending && connected
        invariant |queue| <= |todo| && queue == todo[|todo| - |queue|..]
        invariant history == start + Inputs(todo[..|todo| - |queue|], now)
        decreases |queue|
      {
        ghost var k := |todo| - |queue|;
        var e := queue[0];
        queue := queue[1..];
        ConsumeOne(e, now);
        assert Inputs(todo[..k + 1], now) == Inputs(todo[..k], now) + [Consumed(e, now)];
      }
      assert todo[..|todo|] == todo;
    }

    /** One event, field by field. */
    method ConsumeOne(e: Event, now: int)
      requires Valid()
      modifies this
      ensures Valid() && history == old(history) + [Consumed(e, now)]
      ensures queue == old(queue) && connected == old(connected) && resetPending == old(resetPending)
    {
      hide Replay;
      hide TrackChange;
      hide StoreTexts;
      hide ConsumeTimes;
      ghost var m := Abs();
      var newTrack := IsNewTrack(e);
      if newTrack {
        track := NoTrack;
        clock := ClearTimes(clock);
        requests := requests.(refetchPending := true);
      }
      ghost var before := track;
      var coverSame := KeepTexts(e, newTrack);
      KeepTimes(e, newTrack, now);
      if Cover in e.changed && e.cover != "" && !coverSame {
        requests := requests.(covers := requests.covers + [track.cover]);
      }
      assert requests.covers == AskCover(m.requests.covers, before, e);
      if track.title != "" && (newTrack || requests.refetchPending) {
        var songId := if track.id != "" then track.id else track.audioId;
        requests := requests.(refetchPending := false,
                              lyrics := requests.lyrics + [LyricFetch(track.title, track.artist, songId)]);
      }
      ClearedTimes(m.clock, e, newTrack, now);
      assert Abs() == Consume(m, e, now);
      Extend(Consumed(e, now));
    }

    method IsNewTrack(e: Event) returns (newTrack: bool)
      ensures newTrack == TrackChange(Abs(), e)
    {
      var idChanged := Id in e.changed && e.id != "" && track.id != e.id;
      var audioIdChanged := AudioId in e.changed && e.audioId != "" && track.audioId != e.audioId;
      var titleChanged := Title in e.changed && e.title != "" && track.title != e.title;
      var coverChanged := Cover in e.changed && e.cover != "" && track.cover != "" && track.cover != e.cover;
      var durationChanged := Duration in e.changed && e.durationMs > 0 && clock.durationMs > 0
                             && ClampMs(e.durationMs) != clock.durationMs;
      newTrack := idChanged || audioIdChanged || coverChanged || durationChanged || titleChanged;
    }

    /**
      Store the texts. A changed title that is no new track would be a lyric line, and
      would leave artist and album alone; there is no such title.
     */
    method KeepTexts(e: Event, newTrack: bool) returns (coverSame: bool)
      requires !newTrack ==> !TrackChange(Abs(), e)
      requires newTrack ==> track.title == ""
      modifies this`track
      ensures track == StoreTexts(old(track), e)
      ensures Delivered(e, Cover) != "" ==> track.cover == e.cover && coverSame == !Differs(old(track), e, Cover)
    {
      var titleChanged := Title in e.changed && e.title != "" && track.title != e.title;
      var lyricAsTitle := titleChanged && track.title != "" && !newTrack;
      assert titleChanged ==> Differs(track, e, Title);
      assert !lyricAsTitle;
      hide TrackChange;
      hide Differs;
      hide Delivered;
      hide Keep;
      KeepNames(e);
      KeepArtistAndAlbum(e, lyricAsTitle);
      coverSame := KeepCover(e);
    }

    method KeepNames(e: Event)
      modifies this`track
      ensures track == old(track).(id := Keep(old(track).id, Delivered(e, Id)),
                                   audioId := Keep(old(track).audioId, Delivered(e, AudioId)),
                                   title := Keep(old(track).title, Delivered(e, Title)))
    {
      if Id in e.changed && e.id != "" {
        track := track.(id := e.id);
      }
      if AudioId in e.changed && e.audioId != "" {
        track := track.(audioId := e.audioId);
      }
      if Title in e.changed && e.title != "" {
        track := track.(title := e.title);
      }
    }

    /** A lyric line in the title would only fill them. */
    method KeepArtistAndAlbum(e: Event, lyricAsTitle: bool)
      modifies this`track
      ensures !lyricAsTitle ==> track == old(track).(artist := Keep(old(track).artist, Delivered(e, Artist)),
                                                     album := Keep(old(track).album, Delivered(e, Album)))
      ensures lyricAsTitle ==> track == old(track).(
                artist := if old(track).artist == "" then Delivered(e, Artist) else old(track).artist,
                album := if old(track).album == "" then Delivered(e, Album) else old(track).album)
    {
      if Artist in e.changed && e.artist != "" && (!lyricAsTitle || track.artist == "") {
        track := track.(artist := e.artist);
      }
      if Album in e.changed && e.album != "" && (!lyricAsTitle || track.album == "") {
        track := track.(album := e.album);
      }
    }

    /** A cover that is the stored one is left alone. */
    method KeepCover(e: Event) returns (coverSame: bool)
      modifies this`track
      ensures track == old(track).(cover := Keep(old(track).cover, Delivered(e, Cover)))
      ensures Delivered(e, Cover) != "" ==> coverSame == !Differs(old(track), e, Cover)
    {
      coverSame := false;
      if Cover in e.changed && e.cover != "" {
        coverSame := track.cover != "" && track.cover == e.cover;
        if !coverSame {
          track := track.(cover := e.cover);
        }
      }
    }

    method GetPositionMs(now: int) returns (ms: int)
      ensures ms == Reported(clock, now)
    {
      var position := clock.positionMs;
      if clock.playerState == PLAYING && clock.anchorUs > 0 {
        position := position + ToMs(now - clock.anchorUs);
      }
      if clock.durationMs > 0 && position > clock.durationMs {
        position := clock.durationMs;
      }
      ms := ClampMs(position);
    }

    method KeepTimes(e: Event, newTrack: bool, now: int)
      requires newTrack ==> clock == ClearTimes(clock)
      modifies this`clock
      ensures clock == ConsumeTimes(old(clock), e, newTrack, now)
    {
      var hasPosition := Position in e.changed;
      if Duration in e.changed && e.durationMs > 0 {
        clock := clock.(durationMs := ClampMs(e.durationMs));
      }
      if Position in e.changed {
        clock := clock.(positionMs := ClampMs(e.positionMs));
        if clock.playerState == PLAYING {
          clock := clock.(anchorUs := now);
        }
      }
      if PlayerState in e.changed {
        if STOPPED <= e.playerState <= TRANSITIONING {
          var frozen := GetPositionMs(now);
          clock := clock.(playerState := e.playerState);
          if clock.playerState == PLAYING {
            clock := clock.(anchorUs := now);
          } else {
            if !hasPosition {
              clock := clock.(positionMs := frozen);
            }
            clock := clock.(anchorUs := 0);
          }
        }
      }
      if newTrack && !hasPosition && PlayerState !in e.changed {
        clock := clock.(positionMs := 0, anchorUs := if clock.playerState == PLAYING then now else 0);
      }
    }
  }

  /** Clearing the times first changes nothing: a new track clears them anyway. */
  lemma ClearedTimes(c: Clock, e: Event, newTrack: bool, now: int)
    ensures newTrack ==> ConsumeTimes(ClearTimes(c), e, newTrack, now) == ConsumeTimes(c, e, newTrack, now)
  {
  }

  function Inputs(events: seq<Event>, now: int): seq<Input> {
    seq(|events|, i requires 0 <= i < |events| => Consumed(events[i], now))
  }
}
