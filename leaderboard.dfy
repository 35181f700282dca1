/**
 * The leaderboard API handler (`GET /api/leaderboard`): it scores every commit of
 * the log repository by the difficulty tag in its message, attributes the commit
 * to a participant through a static alias table, and accumulates two
 * dictionaries, participant -> total score and participant -> contributing
 * commits.  The upstream fetch is an input: either the commit list or an error.
 */
module Leaderboard {
  import opened Wrappers

  /** A commit as the hosting API reports it, restricted to the fields the handler reads. */
  datatype Commit = Commit(authorName: string, message: string, sha: string, date: string)

  /** One entry of a participant's detail list. */
  datatype Detail = Detail(message: string, sha: string, points: int, date: string)

  /** The two dictionaries the handler builds. */
  datatype Board = Board(scores: map<string, int>, details: map<string, seq<Detail>>)

  /** Why the upstream call produced no commit list. */
  datatype FetchError =
    | NotOk(status: int)   // the hosting API answered with a non-2xx status
    | Malformed            // the body was not JSON, or not a list of commits

  /** The JSON body the handler answers with. */
  datatype Body =
    | LeaderboardBody(scores: map<string, int>, details: map<string, seq<Detail>>)
    | ErrorBody(error: string)

  datatype Response = Response(status: int, body: Body)

  const FetchFailedMessage := "Failed to fetch leaderboard data"

  // ---------------------------------------------------------------------------
  // Participant names

  /** An alias table: commit author names that belong to a known participant. */
  type Aliases = map<string, string>

  /** The handler's static alias table. */
  const NameMapping: Aliases := map[
    "lolidrk" := "kalyani",
    "Tanmay-Kulkarni101" := "tanmay"
  ]

  /**
   * `aliases[name] || name`: the participant a commit author name is scored
   * under; an alias mapped to the empty string is falsy and falls back too.
   */
  function Resolve(aliases: Aliases, name: string): string {
    if name in aliases && aliases[name] != "" then aliases[name] else name
  }

  /** The handler's table sends both known author names to their participant and nothing else. */
  lemma NameMappingResolves(name: string)
    ensures Resolve(NameMapping, "lolidrk") == "kalyani"
    ensures Resolve(NameMapping, "Tanmay-Kulkarni101") == "tanmay"
    ensures name != "lolidrk" && name != "Tanmay-Kulkarni101" ==> Resolve(NameMapping, name) == name
  {
  }

  /** Participant names of the handler's table are not aliases, so resolving twice changes nothing. */
  lemma ResolveIdempotent(name: string)
    ensures Resolve(NameMapping, Resolve(NameMapping, name)) == Resolve(NameMapping, name)
  {
  }

  // ---------------------------------------------------------------------------
  // Difficulty tags

  const EasyTag := "[Easy]"
  const MediumTag := "[Medium]"
  const HardTag := "[Hard]"

  /** ASCII lower-casing; a non-unicode `/i` regex folds only ASCII letters onto ASCII letters. */
  function Lower(c: char): char {
    if 'A' <= c <= 'Z' then (c as int - 'A' as int + 'a' as int) as char else c
  }

  /** `c` and `d` are the same character, or the two letter cases of one ASCII letter. */
  predicate CaseVariants(c: char, d: char) {
    || c == d
    || ('a' <= c <= 'z' && d as int == c as int - 32)
    || ('a' <= d <= 'z' && c as int == d as int - 32)
  }

  /** Two characters fold to the same one exactly when they are case variants of each other. */
  lemma LowerMatchesCaseVariants(c: char, d: char)
    ensures Lower(c) == Lower(d) <==> CaseVariants(c, d)
  {
  }

  /** `pat` occurs in `text` at offset `i`, letter case ignored. */
  predicate MatchesAt(text: string, pat: string, i: nat)
    requires i + |pat| <= |text|
  {
    forall j :: 0 <= j < |pat| ==> Lower(text[i + j]) == Lower(pat[j])
  }

  /** Reference meaning of `/pat/i.test(text)` for a literal pattern: some offset matches. */
  ghost predicate ContainsCI(text: string, pat: string) {
    exists i: nat :: i + |pat| <= |text| && MatchesAt(text, pat, i)
  }

  /** Scans the offsets `from`, `from + 1`, ... for a case-insensitive occurrence of `pat`. */
  function SearchFrom(text: string, pat: string, from: nat): bool
    decreases |text| - from
  {
    if from + |pat| > |text| then false
    else if MatchesAt(text, pat, from) then true
    else SearchFrom(text, pat, from + 1)
  }

  /** The scan finds an occurrence exactly when there is one at or after `from`. */
  lemma {:induction false} SearchFromMeaning(text: string, pat: string, from: nat)
    ensures SearchFrom(text, pat, from) <==>
      exists i: nat :: from <= i && i + |pat| <= |text| && MatchesAt(text, pat, i)
    decreases |text| - from
  {
    if from + |pat| <= |text| && !MatchesAt(text, pat, from) {
      SearchFromMeaning(text, pat, from + 1);
      if exists i: nat :: from <= i && i + |pat| <= |text| && MatchesAt(text, pat, i) {
        var i: nat :| from <= i && i + |pat| <= |text| && MatchesAt(text, pat, i);
        assert i != from;
      }
    }
  }

  /** The regex test the handler applies to a message. */
  function Test(text: string, pat: string): bool {
    SearchFrom(text, pat, 0)
  }

  /** `Test` is the case-insensitive containment check. */
  lemma TestMeaning(text: string, pat: string)
    ensures Test(text, pat) <==> ContainsCI(text, pat)
  {
    SearchFromMeaning(text, pat, 0);
  }

  /**
   * The points a commit message earns: the first tag found in the order
   * Easy, Medium, Hard decides; a message without any tag is not scored.
   */
  function Points(message: string): (p: Option<int>)
    ensures p.Some? ==> 1 <= p.value <= 3
  {
    if Test(message, EasyTag) then Some(1)
    else if Test(message, MediumTag) then Some(2)
    else if Test(message, HardTag) then Some(3)
    else None
  }

  /** The points rule in terms of tag occurrences, both directions of each case. */
  lemma PointsMeaning(message: string)
    ensures Points(message) == Some(1) <==> ContainsCI(message, EasyTag)
    ensures Points(message) == Some(2) <==> !ContainsCI(message, EasyTag) && ContainsCI(message, MediumTag)
    ensures Points(message) == Some(3) <==>
      !ContainsCI(message, EasyTag) && !ContainsCI(message, MediumTag) && ContainsCI(message, HardTag)
    ensures Points(message) == None <==>
      !ContainsCI(message, EasyTag) && !ContainsCI(message, MediumTag) && !ContainsCI(message, HardTag)
  {
    TestMeaning(message, EasyTag);
    TestMeaning(message, MediumTag);
    TestMeaning(message, HardTag);
  }

  /** A pattern with a letter that the text lacks, in either case, does not occur in it. */
  lemma AbsentChar(text: string, pat: string, k: nat)
    requires k < |pat|
    requires forall i | 0 <= i < |text| :: Lower(text[i]) != Lower(pat[k])
    ensures !ContainsCI(text, pat)
    ensures !Test(text, pat)
  {
    TestMeaning(text, pat);
    forall i: nat | i + |pat| <= |text| ensures !MatchesAt(text, pat, i) {
      assert Lower(text[i + k]) != Lower(pat[k]);
    }
  }

  /** A pattern that matches at some offset is found by the test. */
  lemma PresentAt(text: string, pat: string, i: nat)
    requires i + |pat| <= |text| && MatchesAt(text, pat, i)
    ensures ContainsCI(text, pat) && Test(text, pat)
  {
    TestMeaning(text, pat);
  }

  /** A tag placed between any two strings is found in the result. */
  lemma TagFound(pre: string, tag: string, post: string)
    ensures ContainsCI(pre + tag + post, tag)
  {
    var m := pre + tag + post;
    assert forall j | 0 <= j < |tag| :: m[|pre| + j] == tag[j];
    assert MatchesAt(m, tag, |pre|);
  }

  /**
   * Priority, not last match: a message holding the Easy tag scores 1 wherever
   * the Hard tag stands, before it or after it.
   */
  lemma EasyBeatsHard(pre: string, mid: string, post: string)
    ensures Points(pre + EasyTag + mid + HardTag + post) == Some(1)
    ensures Points(pre + HardTag + mid + EasyTag + post) == Some(1)
  {
    TagFound(pre, EasyTag, mid + HardTag + post);
    assert pre + EasyTag + mid + HardTag + post == pre + EasyTag + (mid + HardTag + post);
    TagFound(pre + HardTag + mid, EasyTag, post);
    PointsMeaning(pre + EasyTag + mid + HardTag + post);
    PointsMeaning(pre + HardTag + mid + EasyTag + post);
  }

  /**
   * Priority, not last match: a message holding the Medium and the Hard tag but
   * no Easy tag scores 2, in either order.
   */
  lemma MediumBeatsHard(pre: string, mid: string, post: string)
    ensures !ContainsCI(pre + MediumTag + mid + HardTag + post, EasyTag) ==>
      Points(pre + MediumTag + mid + HardTag + post) == Some(2)
    ensures !ContainsCI(pre + HardTag + mid + MediumTag + post, EasyTag) ==>
      Points(pre + HardTag + mid + MediumTag + post) == Some(2)
  {
    TagFound(pre, MediumTag, mid + HardTag + post);
    assert pre + MediumTag + mid + HardTag + post == pre + MediumTag + (mid + HardTag + post);
    TagFound(pre + HardTag + mid, MediumTag, post);
    PointsMeaning(pre + MediumTag + mid + HardTag + post);
    PointsMeaning(pre + HardTag + mid + MediumTag + post);
  }

  /** The Hard tag alone, in any letter case, scores 3. */
  lemma HardAlone(m: string, tag: string)
    requires |tag| == |HardTag| && forall j | 0 <= j < |tag| :: Lower(tag[j]) == Lower(HardTag[j])
    requires !ContainsCI(m, EasyTag) && !ContainsCI(m, MediumTag)
    requires exists pre, post :: m == pre + tag + post
    ensures Points(m) == Some(3)
  {
    var pre, post :| m == pre + tag + post;
    assert forall j | 0 <= j < |tag| :: m[|pre| + j] == tag[j];
    assert MatchesAt(m, HardTag, |pre|);
    PointsMeaning(m);
  }

  // ---------------------------------------------------------------------------
  // Aggregation: the reference definition

  /** The detail entry the handler pushes for a scored commit. */
  function ToDetail(c: Commit, points: int): Detail {
    Detail(c.message, c.sha, points, c.date)
  }

  /** The sum of the points of a detail list. */
  function SumPoints(ds: seq<Detail>): (total: int)
    ensures (forall i | 0 <= i < |ds| :: ds[i].points >= 1) ==> total >= |ds|
    decreases |ds|
  {
    if ds == [] then 0 else SumPoints(ds[..|ds| - 1]) + ds[|ds| - 1].points
  }

  lemma SumPointsAppend(ds: seq<Detail>, d: Detail)
    ensures SumPoints(ds + [d]) == SumPoints(ds) + d.points
  {
    assert (ds + [d])[..|ds|] == ds;
  }

  /**
   * One iteration of the handler's loop.  `!scores[who]` is JavaScript
   * truthiness: an absent key and a zero total both (re)start the participant.
   */
  function Step(aliases: Aliases, b: Board, c: Commit): (r: Board)
    requires b.scores.Keys == b.details.Keys
    ensures r.scores.Keys == r.details.Keys
    ensures Points(c.message) == None ==> r == b
    ensures r.scores.Keys == if Points(c.message) == None then b.scores.Keys
                             else b.scores.Keys + {Resolve(aliases, c.authorName)}
  {
    match Points(c.message)
    case None => b
    case Some(p) =>
      var who := Resolve(aliases, c.authorName);
      var restart := who !in b.scores || b.scores[who] == 0;
      var scores := if restart then b.scores[who := 0] else b.scores;
      var details := if restart then b.details[who := []] else b.details;
      Board(scores[who := scores[who] + p], details[who := details[who] + [ToDetail(c, p)]])
  }

  /** The handler's loop over all commits, as a fold from the left. */
  function Aggregate(aliases: Aliases, cs: seq<Commit>): (b: Board)
    ensures b.scores.Keys == b.details.Keys
    decreases |cs|
  {
    if cs == [] then Board(map[], map[])
    else Step(aliases, Aggregate(aliases, cs[..|cs| - 1]), cs[|cs| - 1])
  }

  /** The scored commits attributed to `who`, in input order, as detail entries. */
  function Attributed(aliases: Aliases, cs: seq<Commit>, who: string): (ds: seq<Detail>)
    ensures forall i | 0 <= i < |ds| :: 1 <= ds[i].points <= 3
    decreases |cs|
  {
    if cs == [] then []
    else
      Attributed(aliases, cs[..|cs| - 1], who) + Share(aliases, cs[|cs| - 1], who)
  }

  /** The detail entry one commit adds to `who`'s list: one if it is scored and theirs, none otherwise. */
  function Share(aliases: Aliases, c: Commit, who: string): (ds: seq<Detail>)
    ensures |ds| <= 1
    ensures ds != [] <==> Points(c.message).Some? && Resolve(aliases, c.authorName) == who
  {
    match Points(c.message)
    case Some(p) => if Resolve(aliases, c.authorName) == who then [ToDetail(c, p)] else []
    case None => []
  }

  /** The sum of the points of every scored commit, whoever it is attributed to. */
  function QualifyingPoints(cs: seq<Commit>): (total: int)
    ensures total >= 0
    decreases |cs|
  {
    if cs == [] then 0
    else
      QualifyingPoints(cs[..|cs| - 1]) +
        match Points(cs[|cs| - 1].message)
        case Some(p) => p
        case None => 0
  }

  /** The handler's invariant on the two dictionaries. */
  ghost predicate Consistent(b: Board) {
    && b.scores.Keys == b.details.Keys
    && forall who | who in b.scores ::
         b.scores[who] >= 1 && b.details[who] != [] && b.scores[who] == SumPoints(b.details[who])
  }

  // ---------------------------------------------------------------------------
  // Properties of the aggregation

  /** `b` is what the handler has built after the commits `cs`. */
  ghost predicate Describes(aliases: Aliases, b: Board, cs: seq<Commit>) {
    && b.scores.Keys == b.details.Keys
    && (forall who :: who in b.scores <==> Attributed(aliases, cs, who) != [])
    && (forall who | who in b.scores ::
          b.details[who] == Attributed(aliases, cs, who) && b.scores[who] == SumPoints(Attributed(aliases, cs, who)))
  }

  lemma AttributedSnoc(aliases: Aliases, cs: seq<Commit>, c: Commit, who: string)
    ensures Attributed(aliases, cs + [c], who) == Attributed(aliases, cs, who) + Share(aliases, c, who)
  {
  }

  /**
   * `Step` unfolded for a scored commit, with the restart branch folded in: the
   * helper the proofs about one callback start from.
   */
  lemma StepScored(aliases: Aliases, b: Board, c: Commit, p: int)
    requires b.scores.Keys == b.details.Keys
    requires Points(c.message) == Some(p)
    ensures var who := Resolve(aliases, c.authorName);
      && Step(aliases, b, c).scores ==
           (if who in b.scores && b.scores[who] != 0 then b.scores[who := b.scores[who] + p] else b.scores[who := p])
      && Step(aliases, b, c).details ==
           (if who in b.scores && b.scores[who] != 0 then b.details[who := b.details[who] + [ToDetail(c, p)]]
            else b.details[who := [ToDetail(c, p)]])
  {
    assert [] + [ToDetail(c, p)] == [ToDetail(c, p)];
  }

  /** A scored commit keeps the description up to date for its own participant. */
  lemma StepDescribesAuthor(aliases: Aliases, b: Board, cs: seq<Commit>, c: Commit, p: int)
    requires Describes(aliases, b, cs)
    requires Points(c.message) == Some(p)
    ensures var who := Resolve(aliases, c.authorName);
      && who in Step(aliases, b, c).scores
      && Step(aliases, b, c).details[who] == Attributed(aliases, cs + [c], who)
      && Step(aliases, b, c).scores[who] == SumPoints(Attributed(aliases, cs + [c], who))
  {
    var me, d := Resolve(aliases, c.authorName), ToDetail(c, p);
    StepScored(aliases, b, c, p);
    AttributedSnoc(aliases, cs, c, me);
    SumPointsAppend(Attributed(aliases, cs, me), d);
    if me in b.scores {
      assert |Attributed(aliases, cs, me)| >= 1;
    } else {
      assert Attributed(aliases, cs, me) == [];
      assert [] + [d] == [d];
    }
  }

  /** A scored commit leaves the description of every other participant as it was. */
  lemma StepDescribesOthers(aliases: Aliases, b: Board, cs: seq<Commit>, c: Commit, p: int, who: string)
    requires Describes(aliases, b, cs)
    requires Points(c.message) == Some(p)
    requires who != Resolve(aliases, c.authorName)
    ensures who in Step(aliases, b, c).scores <==> who in b.scores
    ensures Attributed(aliases, cs + [c], who) == Attributed(aliases, cs, who)
    ensures who in b.scores ==>
      Step(aliases, b, c).details[who] == b.details[who] && Step(aliases, b, c).scores[who] == b.scores[who]
  {
    StepScored(aliases, b, c, p);
    AttributedSnoc(aliases, cs, c, who);
  }

  /** One loop iteration keeps the description of the dictionaries up to date. */
  lemma StepDescribes(aliases: Aliases, b: Board, cs: seq<Commit>, c: Commit)
    requires Describes(aliases, b, cs)
    ensures Describes(aliases, Step(aliases, b, c), cs + [c])
  {
    var r := Step(aliases, b, c);
    match Points(c.message)
    case None =>
      forall who ensures Attributed(aliases, cs + [c], who) == Attributed(aliases, cs, who) {
        AttributedSnoc(aliases, cs, c, who);
      }
    case Some(p) =>
      var me := Resolve(aliases, c.authorName);
      StepDescribesAuthor(aliases, b, cs, c, p);
      forall who | who != me
        ensures who in r.scores <==> Attributed(aliases, cs + [c], who) != []
        ensures who in r.scores ==>
          r.details[who] == Attributed(aliases, cs + [c], who) && r.scores[who] == SumPoints(Attributed(aliases, cs + [c], who))
      {
        StepDescribesOthers(aliases, b, cs, c, p, who);
      }
  }

  lemma {:induction false} AggregateDescribes(aliases: Aliases, cs: seq<Commit>)
    ensures Describes(aliases, Aggregate(aliases, cs), cs)
    decreases |cs|
  {
    if cs != [] {
      var init, c := cs[..|cs| - 1], cs[|cs| - 1];
      AggregateDescribes(aliases, init);
      StepDescribes(aliases, Aggregate(aliases, init), init, c);
      assert init + [c] == cs;
    }
  }

  /**
   * What the two dictionaries hold: a participant has an entry exactly when some
   * scored commit is attributed to it, its detail list is those commits in input
   * order, and its total is the sum of their points.
   */
  lemma AggregateMeaning(aliases: Aliases, cs: seq<Commit>)
    ensures forall who :: who in Aggregate(aliases, cs).scores <==> Attributed(aliases, cs, who) != []
    ensures forall who | who in Aggregate(aliases, cs).scores ::
      && Aggregate(aliases, cs).details[who] == Attributed(aliases, cs, who)
      && Aggregate(aliases, cs).scores[who] == SumPoints(Attributed(aliases, cs, who))
  {
    AggregateDescribes(aliases, cs);
  }

  /**
   * Every attributed entry is the `{ message, sha, points, date }` of some
   * commit of the input that resolves to `who` and earns those points.
   */
  lemma {:induction false} AttributedEntriesAreCommits(aliases: Aliases, cs: seq<Commit>, who: string)
    ensures forall i | 0 <= i < |Attributed(aliases, cs, who)| ::
      exists k | 0 <= k < |cs| :: EntryOf(aliases, cs[k], who, Attributed(aliases, cs, who)[i])
    decreases |cs|
  {
    if cs != [] {
      var init, c := cs[..|cs| - 1], cs[|cs| - 1];
      AttributedEntriesAreCommits(aliases, init, who);
      var ds := Attributed(aliases, cs, who);
      assert ds == Attributed(aliases, init, who) + Share(aliases, c, who);
      forall i | 0 <= i < |ds| ensures exists k | 0 <= k < |cs| :: EntryOf(aliases, cs[k], who, ds[i]) {
        if i < |Attributed(aliases, init, who)| {
          var k :| 0 <= k < |init| && EntryOf(aliases, init[k], who, Attributed(aliases, init, who)[i]);
          assert cs[k] == init[k];
        } else {
          assert EntryOf(aliases, cs[|cs| - 1], who, ds[i]);
        }
      }
    } else {
      assert Attributed(aliases, cs, who) == [];
    }
  }

  /** `d` is the entry the handler pushes for commit `c`, attributed to `who`. */
  ghost predicate EntryOf(aliases: Aliases, c: Commit, who: string, d: Detail) {
    && Resolve(aliases, c.authorName) == who
    && Points(c.message) == Some(d.points)
    && d == Detail(c.message, c.sha, d.points, c.date)
  }

  /**
   * What each detail entry holds: the message, sha and date of a commit of the
   * input whose author resolves to the entry's participant, and the points that
   * commit's tags earn.
   */
  lemma DetailEntriesAreCommits(aliases: Aliases, cs: seq<Commit>)
    ensures forall who, i | who in Aggregate(aliases, cs).details && 0 <= i < |Aggregate(aliases, cs).details[who]| ::
      exists k | 0 <= k < |cs| :: EntryOf(aliases, cs[k], who, Aggregate(aliases, cs).details[who][i])
  {
    AggregateMeaning(aliases, cs);
    forall who | who in Aggregate(aliases, cs).details
      ensures forall i | 0 <= i < |Attributed(aliases, cs, who)| ::
        exists k | 0 <= k < |cs| :: EntryOf(aliases, cs[k], who, Attributed(aliases, cs, who)[i])
    {
      AttributedEntriesAreCommits(aliases, cs, who);
    }
  }

  /** The handler's invariant holds of every result, so the restart branch never discards details. */
  lemma AggregateConsistent(aliases: Aliases, cs: seq<Commit>)
    ensures Consistent(Aggregate(aliases, cs))
  {
    AggregateMeaning(aliases, cs);
    var b := Aggregate(aliases, cs);
    forall who | who in b.scores
      ensures b.scores[who] >= 1 && b.details[who] != []
    {
      assert |Attributed(aliases, cs, who)| >= 1;
    }
  }

  /** In a consistent board, a scored commit for a known participant only appends to its entry. */
  lemma StepExtends(aliases: Aliases, b: Board, c: Commit, p: int)
    requires Consistent(b)
    requires Points(c.message) == Some(p)
    requires Resolve(aliases, c.authorName) in b.scores
    ensures Step(aliases, b, c).scores == b.scores[Resolve(aliases, c.authorName) := b.scores[Resolve(aliases, c.authorName)] + p]
    ensures Step(aliases, b, c).details ==
      b.details[Resolve(aliases, c.authorName) := b.details[Resolve(aliases, c.authorName)] + [ToDetail(c, p)]]
  {
    StepScored(aliases, b, c, p);
  }

  /** An untagged commit, wherever it stands in the input, changes neither dictionary. */
  lemma {:induction false} UntaggedIsIgnored(aliases: Aliases, xs: seq<Commit>, c: Commit, ys: seq<Commit>)
    requires Points(c.message) == None
    ensures Aggregate(aliases, xs + [c] + ys) == Aggregate(aliases, xs + ys)
    decreases |ys|
  {
    if ys == [] {
      assert xs + [c] + ys == xs + [c];
      assert (xs + [c])[..|xs|] == xs;
      assert xs + ys == xs;
    } else {
      var init, y := ys[..|ys| - 1], ys[|ys| - 1];
      UntaggedIsIgnored(aliases, xs, c, init);
      assert (xs + [c] + ys)[..|xs + [c] + ys| - 1] == xs + [c] + init;
      assert (xs + ys)[..|xs + ys| - 1] == xs + init;
    }
  }

  /** Detail lists keep input order: commits of an earlier batch come before those of a later one. */
  lemma {:induction false} AttributedAppend(aliases: Aliases, xs: seq<Commit>, ys: seq<Commit>, who: string)
    ensures Attributed(aliases, xs + ys, who) == Attributed(aliases, xs, who) + Attributed(aliases, ys, who)
    decreases |ys|
  {
    if ys == [] {
      assert xs + ys == xs;
    } else {
      var init, c := ys[..|ys| - 1], ys[|ys| - 1];
      AttributedAppend(aliases, xs, init, who);
      assert (xs + ys)[..|xs + ys| - 1] == xs + init && (xs + ys)[|xs + ys| - 1] == c;
      calc {
        Attributed(aliases, xs + ys, who);
        Attributed(aliases, xs + init, who) + Share(aliases, c, who);
        Attributed(aliases, xs, who) + Attributed(aliases, init, who) + Share(aliases, c, who);
        Attributed(aliases, xs, who) + (Attributed(aliases, init, who) + Share(aliases, c, who));
      }
    }
  }

  // ---------------------------------------------------------------------------
  // Sum of all totals

  /** The sum of the values of a score map. */
  ghost function SumValues(m: map<string, int>): int
    decreases |m|
  {
    if m == map[] then 0
    else
      var k :| k in m;
      m[k] + SumValues(m - {k})
  }

  lemma {:induction false} SumValuesRemove(m: map<string, int>, k: string)
    requires k in m
    ensures SumValues(m) == m[k] + SumValues(m - {k})
    decreases |m|
  {
    var j :| j in m && SumValues(m) == m[j] + SumValues(m - {j});
    if j != k {
      SumValuesRemove(m - {j}, k);
      SumValuesRemove(m - {k}, j);
      assert m - {j} - {k} == m - {k} - {j};
    }
  }

  lemma SumValuesUpdate(m: map<string, int>, k: string, v: int)
    ensures SumValues(m[k := v]) == SumValues(m) - (if k in m then m[k] else 0) + v
  {
    SumValuesRemove(m[k := v], k);
    if k in m {
      SumValuesRemove(m, k);
      assert m[k := v] - {k} == m - {k};
    } else {
      assert m[k := v] - {k} == m;
    }
  }

  /** One loop iteration adds the commit's points, if any, to the sum of all totals. */
  lemma StepTotal(aliases: Aliases, b: Board, c: Commit)
    requires b.scores.Keys == b.details.Keys
    ensures SumValues(Step(aliases, b, c).scores) ==
      SumValues(b.scores) + match Points(c.message) case Some(p) => p case None => 0
  {
    match Points(c.message)
    case None =>
    case Some(p) =>
      var me := Resolve(aliases, c.authorName);
      StepScored(aliases, b, c, p);
      if me in b.scores && b.scores[me] != 0 {
        SumValuesUpdate(b.scores, me, b.scores[me] + p);
      } else {
        SumValuesUpdate(b.scores, me, p);
      }
  }

  /** The totals of all participants add up to the points of all scored commits. */
  lemma {:induction false} TotalOfScores(aliases: Aliases, cs: seq<Commit>)
    ensures SumValues(Aggregate(aliases, cs).scores) == QualifyingPoints(cs)
    decreases |cs|
  {
    if cs != [] {
      var init := cs[..|cs| - 1];
      TotalOfScores(aliases, init);
      StepTotal(aliases, Aggregate(aliases, init), cs[|cs| - 1]);
    }
  }

  /**
   * Two distinct authors that are not aliases: an Easy commit and an untagged
   * commit by the first and a Hard commit by the second give totals 1 and 3,
   * and a one-entry detail list for the first.
   */
  lemma TwoAuthorExample(aliases: Aliases, x: string, y: string, m0: string, m1: string, m2: string)
    requires x != y && x !in aliases && y !in aliases
    requires Points(m0) == Some(1) && Points(m1) == None && Points(m2) == Some(3)
    ensures
      var cs := [Commit(x, m0, "a1", "d1"), Commit(x, m1, "b2", "d2"), Commit(y, m2, "c3", "d3")];
      && Aggregate(aliases, cs).scores == map[x := 1, y := 3]
      && |Aggregate(aliases, cs).details[x]| == 1
  {
    var c0, c1, c2 := Commit(x, m0, "a1", "d1"), Commit(x, m1, "b2", "d2"), Commit(y, m2, "c3", "d3");
    var b1 := Board(map[x := 1], map[x := [ToDetail(c0, 1)]]);
    assert Aggregate(aliases, [c0]) == b1 by {
      assert [c0][..0] == [];
      StepScored(aliases, Board(map[], map[]), c0, 1);
    }
    assert Aggregate(aliases, [c0, c1]) == b1 by {
      assert [c0, c1][..1] == [c0];
    }
    assert Aggregate(aliases, [c0, c1, c2]) == Step(aliases, b1, c2) by {
      assert [c0, c1, c2][..2] == [c0, c1];
    }
    StepScored(aliases, b1, c2, 3);
  }

  // ---------------------------------------------------------------------------
  // The handler

  /**
   * The body of the `forEach` callback: one commit updates the two dictionaries
   * exactly as `Step` says.
   */
  method Tally(aliases: Aliases, scores0: map<string, int>, details0: map<string, seq<Detail>>, commit: Commit)
    returns (scores: map<string, int>, details: map<string, seq<Detail>>)
    requires scores0.Keys == details0.Keys
    ensures Board(scores, details) == Step(aliases, Board(scores0, details0), commit)
  {
    scores, details := scores0, details0;
    var displayAuthor := Resolve(aliases, commit.authorName);
    var message, sha, date := commit.message, commit.sha, commit.date;
    var tagged := true;
    var points := 0;
    if Test(message, EasyTag) {
      points := 1;
    } else if Test(message, MediumTag) {
      points := 2;
    } else if Test(message, HardTag) {
      points := 3;
    } else {
      tagged := false;
    }
    if tagged {
      assert Points(message) == Some(points);
      StepScored(aliases, Board(scores0, details0), commit, points);
      if displayAuthor !in scores || scores[displayAuthor] == 0 {
        scores := scores[displayAuthor := 0];
        details := details[displayAuthor := []];
      }
      scores := scores[displayAuthor := scores[displayAuthor] + points];
      details := details[displayAuthor := details[displayAuthor] + [Detail(message, sha, points, date)]];
    } else {
      assert Points(message) == None;
    }
  }

  /**
   * The `forEach` loop of the handler, accumulating both dictionaries in place;
   * `aliases` is the alias table the loop resolves author names through.
   */
  method ComputeLeaderboard(aliases: Aliases, commits: seq<Commit>) returns (scores: map<string, int>, details: map<string, seq<Detail>>)
    ensures Board(scores, details) == Aggregate(aliases, commits)
    ensures scores.Keys == details.Keys
    ensures forall who | who in scores ::
      scores[who] >= 1 && details[who] != [] && scores[who] == SumPoints(details[who])
  {
    scores, details := map[], map[];
    var i := 0;
    while i < |commits|
      invariant 0 <= i <= |commits|
      invariant Board(scores, details) == Aggregate(aliases, commits[..i])
    {
      scores, details := Tally(aliases, scores, details, commits[i]);
      assert commits[..i + 1][..i] == commits[..i];
      i := i + 1;
    }
    assert commits[..i] == commits;
    AggregateConsistent(aliases, commits);
  }

  /** The endpoint: a failed upstream call becomes status 500, otherwise the two dictionaries. */
  method Get(upstream: Result<seq<Commit>, FetchError>) returns (resp: Response)
    ensures upstream.Failure? ==> resp == Response(500, ErrorBody(FetchFailedMessage))
    ensures upstream.Success? ==>
      && resp.status == 200
      && resp.body == LeaderboardBody(Aggregate(NameMapping, upstream.value).scores, Aggregate(NameMapping, upstream.value).details)
    ensures resp.status == 500 <==> upstream.Failure?
    ensures resp.body.ErrorBody? ==> resp.body.error != ""
  {
    match upstream
    case Failure(_) =>
      resp := Response(500, ErrorBody(FetchFailedMessage));
    case Success(commits) =>
      var scores, details := ComputeLeaderboard(NameMapping, commits);
      resp := Response(200, LeaderboardBody(scores, details));
  }
}
