/** The recency-weighted shuffler of Shuffler.py. Every song of a playlist is
    wrapped in an entry, matched against the recently-played history to get a
    1-based recency rank, scored as a recency bias plus a random integer, and
    the entries are stable-sorted by score, highest first.

    Randomness is injected: `draws` is the stream of raw values the random
    generator would produce, read from a position that advances by one on
    every `randint` call. The floating-point curve `250 * tanh(5 / rank)` is a parameter `t`
    whose only known property is that it lies in [0, 250]; scores are reals. */
module Shuffler {
  import opened Results
  import opened StableSort

  /** A track, identified by its URI; the name and primary artist are only
      carried along. */
  datatype Track = Track(uri: string, name: string, primaryArtist: string)

  /** The per-song working record: the song, its score, and its recency rank
      (`None` when the song was not recently played). */
  datatype Entry = Entry(song: Track, score: real, rank: Option<nat>)

  /** The outcome of consuming draws from a position: a value and the
      position of the first unused draw. */
  datatype Drawn = Drawn(value: real, next: nat)

  /** Scored entries and the position of the first unused draw. */
  datatype Scoring = Scoring(entries: seq<Entry>, next: nat)

  /** The outcome of a shuffle: the songs in queue order, the scored entries
      in the same order, and the number of draws consumed. */
  datatype Shuffled = Shuffled(queue: seq<Track>, entries: seq<Entry>, used: nat)

  /** The recency curve `rank |-> 250 * tanh(5 / rank)`, known only to be
      bounded by 0 and 250. */
  type Curve = f: nat -> real | forall k: nat :: 0.0 <= f(k) <= 250.0
    witness (k: nat) => 0.0

  function ScoreKey(e: Entry): real { e.score }

  function SongOf(e: Entry): Track { e.song }

  // ---------------------------------------------------------------------
  // Random draws

  /** `randint(lo, hi)`: the raw draw at position `at`, reduced into
      [lo, hi]; it uses up that one draw. A raw value already in range
      is taken as it is, so every sequence of outcomes comes from some
      stream of draws. */
  function RandInt(lo: int, hi: int, draws: seq<nat>, at: nat): (r: int)
    requires lo <= hi
    requires at < |draws|
    ensures lo <= r <= hi
    ensures draws[at] <= hi - lo ==> r == lo + draws[at]
  {
    lo + draws[at] % (hi - lo + 1)
  }

  /** Draws taken by the recency bias: one, unless the entry has no rank or
      the invalid rank 0. */
  function BiasDraws(rank: Option<nat>): nat {
    if rank.Some? && rank.value != 0 then 1 else 0
  }

  /** Draws taken to score one entry: the bias draws, then one for the
      random term. */
  function ScoreDraws(rank: Option<nat>): nat {
    BiasDraws(rank) + 1
  }

  /** Draws taken to score a whole list of entries: one or two each. */
  function DrawsNeeded(entries: seq<Entry>): (n: nat)
    ensures |entries| <= n <= 2 * |entries|
  {
    if |entries| == 0 then 0
    else ScoreDraws(entries[0].rank) + DrawsNeeded(entries[1..])
  }

  /** The entries that carry a valid (non-zero) rank, in order. */
  function RankedEntries(entries: seq<Entry>): (r: seq<Entry>)
    ensures |r| <= |entries|
    ensures forall k :: 0 <= k < |r| ==> r[k] in entries && BiasDraws(r[k].rank) == 1
  {
    if |entries| == 0 then []
    else (if BiasDraws(entries[0].rank) == 1 then [entries[0]] else []) + RankedEntries(entries[1..])
  }

  /** Scoring takes one draw per entry plus one per ranked entry. */
  lemma {:induction false} DrawsNeededCount(entries: seq<Entry>)
    ensures DrawsNeeded(entries) == |entries| + |RankedEntries(entries)|
  {
    if |entries| > 0 {
      DrawsNeededCount(entries[1..]);
    }
  }

  // ---------------------------------------------------------------------
  // Scoring

  /** `max(0, x)`. */
  function PositivePart(x: real): real {
    if x < 0.0 then 0.0 else x
  }

  /** `get_recency_bias`: no rank gives 0 without a draw; the invalid rank 0
      is reported and also gives 0 without a draw; otherwise the penalty is
      `t(rank)` minus a draw from [0, 100], clamped at 0, and the bias is its
      negation. */
  function RecencyBias(rank: Option<nat>, t: Curve, draws: seq<nat>, at: nat): (r: Drawn)
    requires at + BiasDraws(rank) <= |draws|
    ensures BiasDraws(rank) == 0 ==> r.value == 0.0
    ensures -250.0 <= r.value <= 0.0
    ensures rank.Some? && rank.value != 0 ==>
      r.value == -PositivePart(t(rank.value) - RandInt(0, 100, draws, at) as real)
    ensures r.next == at + BiasDraws(rank)
  {
    match rank
    case None => Drawn(0.0, at)
    case Some(k) =>
      if k == 0 then
        // `get_recency_bias` logs a warning here
        Drawn(0.0, at)
      else
        var bias := t(k) - RandInt(0, 100, draws, at) as real;
        Drawn(if bias < 0.0 then 0.0 else -bias, at + 1)
  }

  /** `get_random`: a draw from [0, 1000]. */
  function RandomTerm(draws: seq<nat>, at: nat): (r: Drawn)
    requires at < |draws|
    ensures 0.0 <= r.value <= 1000.0
    ensures r.value == RandInt(0, 1000, draws, at) as real
    ensures r.next == at + 1
  {
    Drawn(RandInt(0, 1000, draws, at) as real, at + 1)
  }

  /** `get_score`: recency bias plus random term, drawn in that order. */
  function EntryScore(rank: Option<nat>, t: Curve, draws: seq<nat>, at: nat): (r: Drawn)
    requires at + ScoreDraws(rank) <= |draws|
    ensures -250.0 <= r.value <= 1000.0
    ensures rank.None? ==> 0.0 <= r.value
    ensures rank.None? ==> r.value == RandInt(0, 1000, draws, at) as real
    ensures r.value == RecencyBias(rank, t, draws, at).value
      + RandInt(0, 1000, draws, at + BiasDraws(rank)) as real
    ensures r.next == at + ScoreDraws(rank)
  {
    var bias := RecencyBias(rank, t, draws, at);
    var random := RandomTerm(draws, bias.next);
    Drawn(bias.value + random.value, random.next)
  }

  /** Scores the entries in input order, threading the draw position
      through. */
  function ScoreAll(entries: seq<Entry>, t: Curve, draws: seq<nat>, at: nat): (r: Scoring)
    requires at + DrawsNeeded(entries) <= |draws|
    ensures |r.entries| == |entries|
    ensures forall i {:trigger r.entries[i]} :: 0 <= i < |entries| ==>
      r.entries[i].song == entries[i].song && r.entries[i].rank == entries[i].rank
    ensures forall i {:trigger r.entries[i]} :: 0 <= i < |entries| ==>
      -250.0 <= r.entries[i].score <= 1000.0
      && (entries[i].rank.None? ==> 0.0 <= r.entries[i].score)
    ensures r.next == at + DrawsNeeded(entries)
    decreases |entries|
  {
    if |entries| == 0 then Scoring([], at)
    else
      var s := EntryScore(entries[0].rank, t, draws, at);
      var tail := ScoreAll(entries[1..], t, draws, s.next);
      Scoring([entries[0].(score := s.value)] + tail.entries, tail.next)
  }

  /** Draws taken by the entries before entry `i`; they leave room for
      entry `i` itself. */
  function DrawsBefore(entries: seq<Entry>, i: nat): (n: nat)
    requires i <= |entries|
    ensures i <= n <= 2 * i
    ensures i < |entries| ==> n + ScoreDraws(entries[i].rank) <= DrawsNeeded(entries)
    decreases i
  {
    if i == 0 then 0
    else ScoreDraws(entries[0].rank) + DrawsBefore(entries[1..], i - 1)
  }

  /** The draws before entry `i` are the draws of the first `i` entries. */
  lemma {:induction false} DrawsBeforePrefix(entries: seq<Entry>, i: nat)
    requires i <= |entries|
    ensures DrawsBefore(entries, i) == DrawsNeeded(entries[..i])
    decreases i
  {
    if i > 0 {
      DrawsBeforePrefix(entries[1..], i - 1);
      assert entries[..i][1..] == entries[1..][..i - 1];
    }
  }

  /** Entries are scored in input order: entry `i`, whose rank is `rank`,
      is scored from draw `pos`, the one that follows the draws of the
      entries before it. */
  lemma {:induction false} ScoreAllFrom(entries: seq<Entry>, t: Curve, draws: seq<nat>, at: nat, i: nat, rank: Option<nat>, pos: nat)
    requires at + DrawsNeeded(entries) <= |draws|
    requires i < |entries| && rank == entries[i].rank
    requires pos == at + DrawsBefore(entries, i)
    ensures pos + ScoreDraws(rank) <= |draws|
    ensures ScoreAll(entries, t, draws, at).entries[i].score == EntryScore(rank, t, draws, pos).value
    decreases i
  {
    if i > 0 {
      var next := EntryScore(entries[0].rank, t, draws, at).next;
      ScoreAllFrom(entries[1..], t, draws, next, i - 1, rank, pos);
    }
  }

  // ---------------------------------------------------------------------
  // Recency matching

  /** The queue before matching: one unranked entry per song, score 0. */
  function Fresh(songs: seq<Track>): (r: seq<Entry>)
    ensures |r| == |songs|
    ensures forall i {:trigger r[i]} :: 0 <= i < |songs| ==> r[i] == Entry(songs[i], 0.0, None)
  {
    seq(|songs|, i requires 0 <= i < |songs| => Entry(songs[i], 0.0, None))
  }

  /** The index of the first entry whose song has `uri`, if any. */
  function FirstWithUri(entries: seq<Entry>, uri: string): (r: Option<nat>)
    ensures r.None? <==> forall i :: 0 <= i < |entries| ==> entries[i].song.uri != uri
    ensures r.Some? ==> r.value < |entries| && entries[r.value].song.uri == uri
    ensures r.Some? ==> forall i :: 0 <= i < r.value ==> entries[i].song.uri != uri
  {
    if |entries| == 0 then None
    else if entries[0].song.uri == uri then Some(0)
    else match FirstWithUri(entries[1..], uri)
      case None => None
      case Some(k) => Some(k + 1)
  }

  /** Gives `rank` to the first entry whose song has `uri` (the inner loop
      and its `break`); no such entry leaves the list unchanged. */
  function MarkFirst(entries: seq<Entry>, uri: string, rank: nat): (r: seq<Entry>)
    ensures |r| == |entries|
    ensures forall j {:trigger r[j]} :: 0 <= j < |entries| ==>
      r[j].song == entries[j].song && r[j].score == entries[j].score
    ensures forall j {:trigger r[j]} :: 0 <= j < |entries| ==>
      r[j].rank == (if FirstWithUri(entries, uri) == Some(j) then Some(rank) else entries[j].rank)
  {
    if |entries| == 0 then []
    else if entries[0].song.uri == uri then [entries[0].(rank := Some(rank))] + entries[1..]
    else [entries[0]] + MarkFirst(entries[1..], uri, rank)
  }

  /** The outer matching loop: history index `i` hands rank `i + 1` to the
      first entry with the same URI, later indices overwriting earlier ones. */
  function MatchHistory(entries: seq<Entry>, history: seq<Track>): (r: seq<Entry>)
    ensures |r| == |entries|
    ensures forall j {:trigger r[j]} :: 0 <= j < |entries| ==>
      r[j].song == entries[j].song && r[j].score == entries[j].score
    decreases |history|
  {
    if |history| == 0 then entries
    else MarkFirst(MatchHistory(entries, history[..|history| - 1]), history[|history| - 1].uri, |history|)
  }

  /** No earlier song in the list has the same URI as song `j`. */
  ghost predicate IsFirstOccurrence(songs: seq<Track>, j: nat)
    requires j < |songs|
  {
    forall i :: 0 <= i < j ==> songs[i].uri != songs[j].uri
  }

  /** The largest index of `history` holding `uri`, if any. */
  function LastIndexOf(history: seq<Track>, uri: string): (r: Option<nat>)
    ensures r.None? <==> forall k :: 0 <= k < |history| ==> history[k].uri != uri
    ensures r.Some? ==> r.value < |history| && history[r.value].uri == uri
    ensures r.Some? ==> forall k :: r.value < k < |history| ==> history[k].uri != uri
    decreases |history|
  {
    if |history| == 0 then None
    else if history[|history| - 1].uri == uri then Some(|history| - 1)
    else LastIndexOf(history[..|history| - 1], uri)
  }

  /** The rank song `j` ends up with: only the first occurrence of a URI in
      the playlist can be ranked, and its rank is one more than the LAST
      history index holding that URI. */
  ghost function ExpectedRank(songs: seq<Track>, history: seq<Track>, j: nat): (r: Option<nat>)
    requires j < |songs|
    ensures r.Some? ==> 1 <= r.value <= |history|
  {
    if IsFirstOccurrence(songs, j) then
      match LastIndexOf(history, songs[j].uri)
      case None => None
      case Some(k) => Some(k + 1)
    else None
  }

  /** Matching against the history gives every song exactly its expected
      rank. */
  lemma {:induction false} MatchHistoryRanks(songs: seq<Track>, history: seq<Track>)
    ensures forall j :: 0 <= j < |songs| ==>
      MatchHistory(Fresh(songs), history)[j].rank == ExpectedRank(songs, history, j)
    decreases |history|
  {
    if |history| > 0 {
      var h' := history[..|history| - 1];
      var x := history[|history| - 1];
      assert history == h' + [x];
      MatchHistoryRanks(songs, h');
      forall j | 0 <= j < |songs|
        ensures MatchHistory(Fresh(songs), history)[j].rank == ExpectedRank(songs, history, j)
      {
        MatchStepRank(songs, h', x, j);
      }
    }
  }

  /** One step of the matching loop: if the ranks after history `h'` are
      the expected ones, so is the rank of song `j` after one more history
      entry `x`. */
  lemma MatchStepRank(songs: seq<Track>, h': seq<Track>, x: Track, j: nat)
    requires j < |songs|
    requires forall i :: 0 <= i < |songs| ==>
      MatchHistory(Fresh(songs), h')[i].rank == ExpectedRank(songs, h', i)
    ensures MatchHistory(Fresh(songs), h' + [x])[j].rank == ExpectedRank(songs, h' + [x], j)
  {
    var history := h' + [x];
    var n := |history|;
    assert history[..n - 1] == h';
    var before := MatchHistory(Fresh(songs), h');
    var after := MatchHistory(Fresh(songs), history);
    assert after == MarkFirst(before, x.uri, n);
    var first := FirstWithUri(before, x.uri);
    var u := songs[j].uri;
    assert before[j].song == songs[j];
    if first == Some(j) {
      forall i | 0 <= i < j
        ensures songs[i].uri != u
      {
        assert before[i].song == songs[i];
      }
      assert IsFirstOccurrence(songs, j);
      assert LastIndexOf(history, u) == Some(n - 1);
    } else if u == x.uri {
      assert first.Some?;
      var k := first.value;
      assert before[k].song == songs[k];
      assert !IsFirstOccurrence(songs, j);
      assert before[j].rank == ExpectedRank(songs, h', j) == None;
    } else {
      assert LastIndexOf(history, u) == LastIndexOf(h', u);
      assert after[j].rank == before[j].rank == ExpectedRank(songs, h', j);
      SameLastIndexSameRank(songs, history, h', j);
    }
  }

  lemma SameLastIndexSameRank(songs: seq<Track>, h1: seq<Track>, h2: seq<Track>, j: nat)
    requires j < |songs|
    requires LastIndexOf(h1, songs[j].uri) == LastIndexOf(h2, songs[j].uri)
    ensures ExpectedRank(songs, h1, j) == ExpectedRank(songs, h2, j)
  {
  }

  /** Matching keeps every song in its playlist position. */
  lemma MatchedSongs(songs: seq<Track>, history: seq<Track>)
    ensures Map(MatchHistory(Fresh(songs), history), SongOf) == songs
  {
    var matched := MatchHistory(Fresh(songs), history);
    forall m | 0 <= m < |songs|
      ensures matched[m].song == songs[m]
    {
      assert matched[m].song == Fresh(songs)[m].song;
    }
  }

  /** Every rank matching hands out is a 1-based history position. */
  ghost predicate RanksWithin(entries: seq<Entry>, historyLength: nat) {
    forall j :: 0 <= j < |entries| && entries[j].rank.Some? ==>
      1 <= entries[j].rank.value <= historyLength
  }

  lemma MatchedRankRange(songs: seq<Track>, history: seq<Track>)
    ensures RanksWithin(MatchHistory(Fresh(songs), history), |history|)
  {
    MatchHistoryRanks(songs, history);
  }

  // ---------------------------------------------------------------------
  // The shuffle

  /** Scoring and stable-sorting of already matched entries: the queue holds
      the same songs, ordered by non-increasing score, and exactly the draws
      the scoring needs are consumed. */
  function Arrange(entries: seq<Entry>, t: Curve, draws: seq<nat>): (r: Shuffled)
    requires DrawsNeeded(entries) <= |draws|
    ensures |r.queue| == |entries| && |r.entries| == |entries|
    ensures multiset(r.queue) == multiset(Map(entries, SongOf))
    ensures r.queue == Map(r.entries, SongOf)
    ensures SortedDesc(r.entries, ScoreKey)
    ensures r.used == DrawsNeeded(entries)
  {
    var scored := ScoreAll(entries, t, draws, 0);
    var sorted := Sort(scored.entries, ScoreKey);
    SortMapPerm(scored.entries, ScoreKey, SongOf);
    ScoreAllSongs(entries, t, draws, 0);
    SortSorted(scored.entries, ScoreKey);
    Shuffled(Map(sorted, SongOf), sorted, scored.next)
  }

  /** Scoring keeps the songs in place. */
  lemma ScoreAllSongs(entries: seq<Entry>, t: Curve, draws: seq<nat>, at: nat)
    requires at + DrawsNeeded(entries) <= |draws|
    ensures Map(ScoreAll(entries, t, draws, at).entries, SongOf) == Map(entries, SongOf)
  {
  }

  /** `Shuffler.shuffle` without the debug log: match against the history,
      score, stable-sort by descending score, and return the songs in that
      order. The queue is a permutation of the playlist, ordered by
      non-increasing score, and every draw not spent on a song's random term
      went to the recency bias of a ranked song. */
  function Shuffle(songs: seq<Track>, history: seq<Track>, t: Curve, draws: seq<nat>): (r: Shuffled)
    requires |draws| >= 2 * |songs|
    ensures |r.queue| == |songs| && |r.entries| == |songs|
    ensures multiset(r.queue) == multiset(songs)
    ensures r.queue == Map(r.entries, SongOf)
    ensures SortedDesc(r.entries, ScoreKey)
    ensures |songs| <= r.used <= 2 * |songs|
  {
    MatchedSongs(songs, history);
    Arrange(MatchHistory(Fresh(songs), history), t, draws)
  }

  /** A shuffle consumes one draw per song for the random term and one per
      ranked song for the recency bias. */
  lemma ShuffleDraws(songs: seq<Track>, history: seq<Track>, t: Curve, draws: seq<nat>)
    requires |draws| >= 2 * |songs|
    ensures Shuffle(songs, history, t, draws).used
      == |songs| + |RankedEntries(MatchHistory(Fresh(songs), history))|
  {
    DrawsNeededCount(MatchHistory(Fresh(songs), history));
  }

  /** The score and rank bounds every entry of a shuffle satisfies. */
  ghost predicate WithinBounds(e: Entry, historyLength: nat) {
    && -250.0 <= e.score <= 1000.0
    && (e.rank.None? ==> 0.0 <= e.score)
    && (e.rank.Some? ==> 1 <= e.rank.value <= historyLength)
  }

  /** Every entry of the list satisfies the bounds. */
  ghost predicate AllWithinBounds(entries: seq<Entry>, historyLength: nat) {
    forall i :: 0 <= i < |entries| ==> WithinBounds(entries[i], historyLength)
  }

  /** Every entry of a shuffle has a score in [-250, 1000], non-negative when
      unranked, and a rank that is a 1-based history position. */
  lemma ShuffleBounds(songs: seq<Track>, history: seq<Track>, t: Curve, draws: seq<nat>)
    requires |draws| >= 2 * |songs|
    ensures AllWithinBounds(Shuffle(songs, history, t, draws).entries, |history|)
  {
    MatchedRankRange(songs, history);
    ArrangeBounds(MatchHistory(Fresh(songs), history), t, draws, |history|);
  }

  /** Arranging entries whose ranks are history positions keeps every entry
      within the bounds. */
  lemma ArrangeBounds(entries: seq<Entry>, t: Curve, draws: seq<nat>, historyLength: nat)
    requires DrawsNeeded(entries) <= |draws|
    requires RanksWithin(entries, historyLength)
    ensures AllWithinBounds(Arrange(entries, t, draws).entries, historyLength)
  {
    var scored := ScoreAll(entries, t, draws, 0).entries;
    ScoredWithinBounds(entries, scored, historyLength);
    SortWithinBounds(scored, historyLength);
  }

  /** Scored entries whose ranks are history positions are within the
      bounds. */
  lemma ScoredWithinBounds(before: seq<Entry>, after: seq<Entry>, historyLength: nat)
    requires |after| == |before|
    requires RanksWithin(before, historyLength)
    requires forall i :: 0 <= i < |before| ==> after[i].rank == before[i].rank
    requires forall i :: 0 <= i < |before| ==>
      -250.0 <= after[i].score <= 1000.0 && (before[i].rank.None? ==> 0.0 <= after[i].score)
    ensures AllWithinBounds(after, historyLength)
  {
  }

  /** Sorting keeps every entry within the bounds. */
  lemma SortWithinBounds(s: seq<Entry>, historyLength: nat)
    requires AllWithinBounds(s, historyLength)
    ensures AllWithinBounds(Sort(s, ScoreKey), historyLength)
  {
    var sorted := Sort(s, ScoreKey);
    forall i | 0 <= i < |sorted|
      ensures WithinBounds(sorted[i], historyLength)
    {
      assert sorted[i] in multiset(s);
      var m :| 0 <= m < |s| && s[m] == sorted[i];
    }
  }

  // ---------------------------------------------------------------------
  // What a shuffle is made of

  /** The entries after matching and scoring, still in playlist order. */
  function Scored(songs: seq<Track>, history: seq<Track>, t: Curve, draws: seq<nat>): (r: seq<Entry>)
    requires |draws| >= 2 * |songs|
    ensures |r| == |songs|
  {
    ScoreAll(MatchHistory(Fresh(songs), history), t, draws, 0).entries
  }

  /** Before sorting, entry `m` is song `m` of the playlist with its expected
      recency rank. */
  lemma ScoredEntries(songs: seq<Track>, history: seq<Track>, t: Curve, draws: seq<nat>)
    requires |draws| >= 2 * |songs|
    ensures Map(Scored(songs, history, t, draws), SongOf) == songs
    ensures forall m :: 0 <= m < |songs| ==>
      Scored(songs, history, t, draws)[m].rank == ExpectedRank(songs, history, m)
  {
    var matched := MatchHistory(Fresh(songs), history);
    MatchedSongs(songs, history);
    MatchHistoryRanks(songs, history);
    ScoreAllSongs(matched, t, draws, 0);
  }

  /** The shuffle reorders the scored entries: the same entries, and among
      entries with equal scores the playlist order is kept. */
  lemma ShuffleReorders(songs: seq<Track>, history: seq<Track>, t: Curve, draws: seq<nat>, v: real)
    requires |draws| >= 2 * |songs|
    ensures multiset(Shuffle(songs, history, t, draws).entries) == multiset(Scored(songs, history, t, draws))
    ensures Filter(Shuffle(songs, history, t, draws).entries, ScoreKey, v)
      == Filter(Scored(songs, history, t, draws), ScoreKey, v)
  {
    SortStable(Scored(songs, history, t, draws), ScoreKey, v);
  }

  /** Scoring reads only the draws it uses: streams that agree on them give
      the same result. */
  lemma {:induction false} ScoreAllFrame(entries: seq<Entry>, t: Curve, d1: seq<nat>, d2: seq<nat>, at: nat)
    requires at + DrawsNeeded(entries) <= |d1|
    requires at + DrawsNeeded(entries) <= |d2|
    requires forall k :: at <= k < at + DrawsNeeded(entries) ==> d1[k] == d2[k]
    ensures ScoreAll(entries, t, d1, at) == ScoreAll(entries, t, d2, at)
    decreases |entries|
  {
    if |entries| > 0 {
      var s1 := EntryScore(entries[0].rank, t, d1, at);
      var s2 := EntryScore(entries[0].rank, t, d2, at);
      assert s1 == s2;
      ScoreAllFrame(entries[1..], t, d1, d2, s1.next);
    }
  }

  /** The shuffle reads only the draws it uses. */
  lemma ShuffleFrame(songs: seq<Track>, history: seq<Track>, t: Curve, d1: seq<nat>, d2: seq<nat>)
    requires |d1| >= 2 * |songs| && |d2| >= 2 * |songs|
    requires forall k :: 0 <= k < Shuffle(songs, history, t, d1).used ==> d1[k] == d2[k]
    ensures Shuffle(songs, history, t, d1) == Shuffle(songs, history, t, d2)
  {
    ScoreAllFrame(MatchHistory(Fresh(songs), history), t, d1, d2, 0);
  }

  /** With the same draw, a song with a larger curve value (a more recent
      play, as `tanh` is increasing) never gets a larger bias; the bias is 0
      exactly when the curve value does not exceed the draw. */
  lemma BiasMonotone(k1: nat, k2: nat, t: Curve, draws: seq<nat>, at: nat)
    requires k1 != 0 && k2 != 0
    requires at < |draws|
    requires t(k1) >= t(k2)
    ensures RecencyBias(Some(k1), t, draws, at).value <= RecencyBias(Some(k2), t, draws, at).value
    ensures RecencyBias(Some(k1), t, draws, at).value == 0.0 <==> t(k1) <= RandInt(0, 100, draws, at) as real
  {
  }
}
