/**
 * The derivations of the leaderboard page (`Home`): the participant list sorted
 * by score, the condition and denominator of the two-party bar, the rank of each
 * table row, and the debug projection of processed commits.  Rendering and React
 * state are not modelled.
 */
module Home {
  import opened Wrappers
  import Leaderboard

  /** The score dictionary as the page receives it. */
  type Scores = map<string, int>

  /** One processed commit, as an API payload may list it under `processedCommits`. */
  datatype ProcessedCommit = ProcessedCommit(sha: string, author: string, message: string, points: int)

  /** The payload fields the page reads. */
  datatype LeaderboardData = LeaderboardData(
    scores: Scores,
    details: map<string, seq<Leaderboard.Detail>>,
    processedCommits: Option<seq<ProcessedCommit>>)

  /** One entry of the debug panel. */
  datatype DebugCommit = DebugCommit(
    sha: string,
    gitHubLogin: string,
    commitAuthorName: string,
    message: string,
    points: int,
    skipped: bool)

  /** One row of the full leaderboard table. */
  datatype Row = Row(rank: int, name: string, score: int)

  // ---------------------------------------------------------------------------
  // The score dictionary and its participants

  /** `leaderboardData?.scores || {}`: no data yet means no scores. */
  function ScoresOf(data: Option<LeaderboardData>): Scores {
    match data
    case None => map[]
    case Some(d) => d.scores
  }

  /**
   * `order` is what `Object.keys(scores)` lists: every key once, in an order
   * the model leaves open.
   */
  ghost predicate Enumerates(order: seq<string>, scores: Scores) {
    multiset(order) == multiset(scores.Keys)
  }

  predicate AllScored(ps: seq<string>, scores: Scores) {
    forall i | 0 <= i < |ps| :: ps[i] in scores
  }

  /** Scores never increase from one participant to the next along `ps`. */
  predicate Descending(ps: seq<string>, scores: Scores)
    requires AllScored(ps, scores)
  {
    forall i | 0 <= i < |ps| - 1 :: scores[ps[i]] >= scores[ps[i + 1]]
  }

  /** Along a descending list no later participant has a higher score than an earlier one. */
  lemma {:induction false} DescendingPairs(ps: seq<string>, scores: Scores, i: nat, j: nat)
    requires AllScored(ps, scores) && Descending(ps, scores)
    requires i <= j < |ps|
    ensures scores[ps[i]] >= scores[ps[j]]
    decreases j - i
  {
    if i < j {
      DescendingPairs(ps, scores, i + 1, j);
    }
  }

  lemma EnumeratesScored(order: seq<string>, scores: Scores)
    requires Enumerates(order, scores)
    ensures AllScored(order, scores)
  {
    forall i | 0 <= i < |order| ensures order[i] in scores {
      assert order[i] in multiset(order);
    }
  }

  /** Putting a participant in front keeps a list descending when it scores at least the old head. */
  lemma ConsDescending(y: string, ps: seq<string>, scores: Scores)
    requires y in scores && AllScored(ps, scores)
    ensures AllScored([y] + ps, scores)
    ensures Descending(ps, scores) && (ps != [] ==> scores[y] >= scores[ps[0]]) ==> Descending([y] + ps, scores)
  {
  }

  /** Dropping the head keeps a list descending. */
  lemma TailDescending(ps: seq<string>, scores: Scores)
    requires ps != [] && AllScored(ps, scores)
    ensures AllScored(ps[1..], scores)
    ensures Descending(ps, scores) ==> Descending(ps[1..], scores)
  {
  }

  /**
   * Places `x` after every entry with a higher score and before the rest, so
   * that among equal scores the earlier key stays first.
   */
  function Insert(x: string, ps: seq<string>, scores: Scores): (r: seq<string>)
    requires x in scores && AllScored(ps, scores)
    ensures multiset(r) == multiset(ps) + multiset{x}
    ensures AllScored(r, scores) && |r| == |ps| + 1
    decreases |ps|
  {
    if ps == [] || scores[x] >= scores[ps[0]] then
      ConsDescending(x, ps, scores);
      [x] + ps
    else
      var rest := Insert(x, ps[1..], scores);
      assert ps == [ps[0]] + ps[1..];
      ConsDescending(ps[0], rest, scores);
      [ps[0]] + rest
  }

  /** Inserting into a descending list keeps it descending; the new head is `x` or the old head. */
  lemma {:induction false} InsertDescending(x: string, ps: seq<string>, scores: Scores)
    requires x in scores && AllScored(ps, scores) && Descending(ps, scores)
    ensures var r := Insert(x, ps, scores);
      && Descending(r, scores)
      && (r[0] == x || (ps != [] && r[0] == ps[0]))
    decreases |ps|
  {
    if ps == [] || scores[x] >= scores[ps[0]] {
      ConsDescending(x, ps, scores);
    } else {
      TailDescending(ps, scores);
      InsertDescending(x, ps[1..], scores);
      var rest := Insert(x, ps[1..], scores);
      assert scores[ps[0]] >= scores[rest[0]];
      ConsDescending(ps[0], rest, scores);
    }
  }

  /** A stable sort by descending score, as `Array.prototype.sort` with `scores[b] - scores[a]`. */
  function SortByScore(keys: seq<string>, scores: Scores): (r: seq<string>)
    requires AllScored(keys, scores)
    ensures multiset(r) == multiset(keys)
    ensures AllScored(r, scores) && Descending(r, scores)
    decreases |keys|
  {
    if keys == [] then []
    else
      assert keys == [keys[0]] + keys[1..];
      InsertDescending(keys[0], SortByScore(keys[1..], scores), scores);
      Insert(keys[0], SortByScore(keys[1..], scores), scores)
  }

  /** `Object.keys(scores).sort((a, b) => scores[b] - scores[a])`. */
  function AllParticipants(scores: Scores, order: seq<string>): (ps: seq<string>)
    requires Enumerates(order, scores)
    ensures multiset(ps) == multiset(scores.Keys)
    ensures |ps| == |scores|
    ensures AllScored(ps, scores) && Descending(ps, scores)
  {
    EnumeratesScored(order, scores);
    SortByScore(order, scores)
  }

  /** An element that occurs at two positions occurs at least twice in the multiset. */
  lemma RepeatCounts(s: seq<string>, i: nat, j: nat)
    requires i < j < |s| && s[i] == s[j]
    ensures multiset(s)[s[i]] >= 2
  {
    assert s == s[..j] + s[j..];
    assert s[..j][i] == s[i] && s[j..][0] == s[i];
    assert s[i] in multiset(s[..j]) && s[i] in multiset(s[j..]);
  }

  /** The participant list holds each participant exactly once, and nothing else. */
  lemma AllParticipantsAreTheKeys(scores: Scores, order: seq<string>)
    requires Enumerates(order, scores)
    ensures forall p :: p in AllParticipants(scores, order) <==> p in scores
    ensures forall i, j | 0 <= i < j < |AllParticipants(scores, order)| ::
      AllParticipants(scores, order)[i] != AllParticipants(scores, order)[j]
  {
    var ps := AllParticipants(scores, order);
    forall p ensures p in ps <==> p in scores {
      assert p in ps <==> p in multiset(ps);
    }
    forall i, j | 0 <= i < j < |ps| ensures ps[i] != ps[j] {
      if ps[i] == ps[j] {
        RepeatCounts(ps, i, j);
      }
    }
  }

  // ---------------------------------------------------------------------------
  // The two-party bar

  /** `allParticipants.length === 2`. */
  predicate ShowTugOfWar(ps: seq<string>) {
    |ps| == 2
  }

  /** The bar is shown exactly when the score dictionary has two participants. */
  lemma TugOfWarIffTwoParticipants(scores: Scores, order: seq<string>)
    requires Enumerates(order, scores)
    ensures ShowTugOfWar(AllParticipants(scores, order)) <==> |scores| == 2
  {
  }

  /** `const [p1, p2] = ps`: the element at `i`, or `undefined` past the end. */
  function Nth(ps: seq<string>, i: nat): Option<string> {
    if i < |ps| then Some(ps[i]) else None
  }

  /** A missing element used as a property key is the string "undefined". */
  function KeyOf(p: Option<string>): string {
    match p
    case Some(k) => k
    case None => "undefined"
  }

  /** `scores[p] || 0`. */
  function ScoreOrZero(scores: Scores, p: Option<string>): int {
    var k := KeyOf(p);
    if k in scores then scores[k] else 0
  }

  /** `(scores[p1] || 0) + (scores[p2] || 0) || 1`: the denominator of the bar. */
  function Total(scores: Scores, ps: seq<string>): int {
    var sum := ScoreOrZero(scores, Nth(ps, 0)) + ScoreOrZero(scores, Nth(ps, 1));
    if sum == 0 then 1 else sum
  }

  /** With non-negative scores the denominator is never below 1, so the bar never divides by zero. */
  lemma TotalPositive(scores: Scores, ps: seq<string>)
    requires forall k | k in scores :: scores[k] >= 0
    ensures Total(scores, ps) >= 1
  {
  }

  /** When the bar is shown, the denominator is the sum of both scores, or 1 if that sum is 0. */
  lemma TotalOfShownBar(scores: Scores, ps: seq<string>)
    requires ShowTugOfWar(ps) && AllScored(ps, scores)
    ensures var sum := scores[ps[0]] + scores[ps[1]];
      Total(scores, ps) == if sum == 0 then 1 else sum
  {
  }

  /** No data: no participants, no bar, and the fallback denominator 1. */
  lemma MissingDataHasNoParticipants(order: seq<string>)
    requires Enumerates(order, ScoresOf(None))
    ensures AllParticipants(ScoresOf(None), order) == []
    ensures !ShowTugOfWar(AllParticipants(ScoresOf(None), order))
    ensures Total(ScoresOf(None), AllParticipants(ScoresOf(None), order)) == 1
  {
  }

  /**
   * With a single participant `p2` is `undefined`, which as a key names the
   * property "undefined": the denominator counts the sole score twice exactly
   * when the participant is called "undefined".
   */
  lemma TotalOfOneParticipant(scores: Scores, order: seq<string>)
    requires Enumerates(order, scores) && |scores| == 1
    ensures
      var ps := AllParticipants(scores, order);
      var s := scores[ps[0]];
      var sum := if ps[0] == "undefined" then s + s else s;
      |ps| == 1 && Total(scores, ps) == if sum == 0 then 1 else sum
  {
    var ps := AllParticipants(scores, order);
    assert ps[0] in scores;
    assert forall k | k in scores :: k == ps[0] by {
      forall k | k in scores ensures k == ps[0] {
        assert k in multiset(ps);
      }
    }
  }

  /**
   * For the handler's dictionaries the fallback never applies: every total is
   * at least 1, so a shown bar divides by the sum of both totals, at least 2.
   */
  lemma TotalOfHandlerScores(cs: seq<Leaderboard.Commit>, order: seq<string>)
    requires Enumerates(order, Leaderboard.Aggregate(Leaderboard.NameMapping, cs).scores)
    ensures
      var scores := Leaderboard.Aggregate(Leaderboard.NameMapping, cs).scores;
      var ps := AllParticipants(scores, order);
      ShowTugOfWar(ps) ==> Total(scores, ps) == scores[ps[0]] + scores[ps[1]] >= 2
  {
    var scores := Leaderboard.Aggregate(Leaderboard.NameMapping, cs).scores;
    Leaderboard.AggregateConsistent(Leaderboard.NameMapping, cs);
    var ps := AllParticipants(scores, order);
    if ShowTugOfWar(ps) {
      assert scores[ps[0]] >= 1 && scores[ps[1]] >= 1;
    }
  }

  // ---------------------------------------------------------------------------
  // The table

  /** The rows of the full leaderboard: rank `index + 1`, name and score. */
  function Rows(ps: seq<string>, scores: Scores): (rows: seq<Row>)
    requires AllScored(ps, scores)
    ensures |rows| == |ps|
    ensures forall i | 0 <= i < |rows| :: rows[i].name == ps[i] && rows[i].score == scores[ps[i]]
    decreases |ps|
  {
    if ps == [] then []
    else Rows(ps[..|ps| - 1], scores) + [Row(|ps|, ps[|ps| - 1], scores[ps[|ps| - 1]])]
  }

  /** Row `i` carries rank `i + 1`. */
  lemma {:induction false} RowRanks(ps: seq<string>, scores: Scores)
    requires AllScored(ps, scores)
    ensures forall i | 0 <= i < |Rows(ps, scores)| :: Rows(ps, scores)[i].rank == i + 1
    decreases |ps|
  {
    if ps != [] {
      RowRanks(ps[..|ps| - 1], scores);
    }
  }

  /**
   * The table lists every participant once, ranks run 1, 2, 3, ... down the
   * table, and a row never has a higher score than a row above it.
   */
  lemma TableIsRanked(scores: Scores, order: seq<string>)
    requires Enumerates(order, scores)
    ensures var rows := Rows(AllParticipants(scores, order), scores);
      && |rows| == |scores|
      && (forall i | 0 <= i < |rows| :: rows[i].rank == i + 1 && rows[i].name in scores)
      && (forall i, j | 0 <= i < j < |rows| :: rows[i].score >= rows[j].score)
  {
    var ps := AllParticipants(scores, order);
    RowRanks(ps, scores);
    forall i, j | 0 <= i < j < |ps| ensures scores[ps[i]] >= scores[ps[j]] {
      DescendingPairs(ps, scores, i, j);
    }
  }

  // ---------------------------------------------------------------------------
  // The debug panel

  /** The maximum number of processed commits the debug panel shows. */
  const DebugShown := 10

  function ToDebug(c: ProcessedCommit): DebugCommit {
    DebugCommit(c.sha, c.author, c.author, c.message, c.points, false)
  }

  /** `data.processedCommits.map(...)` when present; otherwise the list stays empty. */
  function DebugData(processed: Option<seq<ProcessedCommit>>): (debug: seq<DebugCommit>)
    ensures processed.None? ==> debug == []
    ensures processed.Some? ==> |debug| == |processed.value|
    decreases if processed.Some? then |processed.value| else 0
  {
    match processed
    case None => []
    case Some(cs) =>
      if cs == [] then [] else DebugData(Some(cs[..|cs| - 1])) + [ToDebug(cs[|cs| - 1])]
  }

  /** Each debug entry copies its processed commit and is marked as not skipped. */
  lemma {:induction false} DebugDataCopies(cs: seq<ProcessedCommit>)
    ensures forall i | 0 <= i < |DebugData(Some(cs))| ::
      var d, c := DebugData(Some(cs))[i], cs[i];
      && d.sha == c.sha && d.message == c.message && d.points == c.points
      && d.gitHubLogin == c.author && d.commitAuthorName == c.author
      && !d.skipped
    decreases |cs|
  {
    if cs != [] {
      DebugDataCopies(cs[..|cs| - 1]);
    }
  }

  /** `debugData.slice(0, 10)`: the first ten entries, or all of them when there are fewer. */
  function ShownDebug(debug: seq<DebugCommit>): (shown: seq<DebugCommit>)
    ensures |shown| <= DebugShown
    ensures |shown| == if |debug| < DebugShown then |debug| else DebugShown
    ensures shown == debug[..|shown|]
  {
    if |debug| <= DebugShown then debug else debug[..DebugShown]
  }

  /**
   * The payload the page receives for a response body: the route's success
   * body carries `scores` and `details` only; an error body leaves the page
   * without data.
   */
  function PayloadOf(body: Leaderboard.Body): Option<LeaderboardData> {
    match body
    case LeaderboardBody(scores, details) => Some(LeaderboardData(scores, details, None))
    case ErrorBody(_) => None
  }

  /**
   * The debug panel of the route's success body lists no commits, and the page
   * shows exactly the participants scored by the route.
   */
  lemma RouteBodyShowsNoDebugCommits(cs: seq<Leaderboard.Commit>)
    ensures
      var b := Leaderboard.Aggregate(Leaderboard.NameMapping, cs);
      var data := PayloadOf(Leaderboard.LeaderboardBody(b.scores, b.details));
      && data.Some?
      && ShownDebug(DebugData(data.value.processedCommits)) == []
      && ScoresOf(data) == b.scores
  {
  }
}
