/** The high-score table: a list of entries that only grows, a per-tier
    leaderboard query (best ten, highest first) and a listing of all entries
    newest first. The getters are functions of the stored list. */
module HighScores {
  import opened Settings

  datatype HighScore = HighScore(name: string, score: int, difficulty: Difficulty, date: string)

  /** How many entries a leaderboard shows. */
  const TOP_COUNT: nat := 10

  function Min(a: nat, b: nat): nat {
    if a < b then a else b
  }

  /** The entries of tier `d`, each as often as it is stored. */
  function FilterByDifficulty(scores: seq<HighScore>, d: Difficulty): (r: seq<HighScore>)
    ensures forall e :: multiset(r)[e] == if e.difficulty == d then multiset(scores)[e] else 0
    ensures forall i :: 0 <= i < |r| ==> r[i].difficulty == d
  {
    if scores == [] then []
    else
      assert scores == [scores[0]] + scores[1..];
      if scores[0].difficulty == d then [scores[0]] + FilterByDifficulty(scores[1..], d)
      else FilterByDifficulty(scores[1..], d)
  }

  ghost predicate SortedDesc(s: seq<HighScore>, key: HighScore -> int) {
    forall i, j :: 0 <= i < j < |s| ==> key(s[i]) >= key(s[j])
  }

  /** Every key in `s` is at most `bound`. */
  ghost predicate KeysAtMost(s: seq<HighScore>, bound: int, key: HighScore -> int) {
    forall k :: 0 <= k < |s| ==> key(s[k]) <= bound
  }

  lemma ConsSorted(a: HighScore, s: seq<HighScore>, key: HighScore -> int)
    requires SortedDesc(s, key) && KeysAtMost(s, key(a), key)
    ensures SortedDesc([a] + s, key)
  {
    var r := [a] + s;
    forall i, j | 0 <= i < j < |r|
      ensures key(r[i]) >= key(r[j])
    {
      assert r[j] == s[j - 1];
      if i > 0 {
        assert r[i] == s[i - 1];
      }
    }
  }

  /** A bound on the keys carries over to a list with the same entries. */
  lemma KeysAtMostSameEntries(s: seq<HighScore>, u: seq<HighScore>, bound: int, key: HighScore -> int)
    requires multiset(s) == multiset(u) && KeysAtMost(u, bound, key)
    ensures KeysAtMost(s, bound, key)
  {
    forall k | 0 <= k < |s|
      ensures key(s[k]) <= bound
    {
      assert s[k] in multiset(u);
      var m :| 0 <= m < |u| && u[m] == s[k];
    }
  }

  /** Puts `x` in front of the first entry whose key is not larger, so that
      it stays in front of entries with an equal key. */
  function Insert(x: HighScore, t: seq<HighScore>, key: HighScore -> int): (r: seq<HighScore>)
    requires SortedDesc(t, key)
    ensures SortedDesc(r, key)
    ensures multiset(r) == multiset(t) + multiset{x}
    ensures |r| == |t| + 1
  {
    if t == [] || key(x) >= key(t[0]) then
      ConsSorted(x, t, key);
      [x] + t
    else
      assert t == [t[0]] + t[1..];
      var rest := Insert(x, t[1..], key);
      assert KeysAtMost(t[1..] + [x], key(t[0]), key);
      KeysAtMostSameEntries(rest, t[1..] + [x], key(t[0]), key);
      ConsSorted(t[0], rest, key);
      [t[0]] + rest
  }

  /** A stable sort by `key`, largest first: the model of Array.sort with a
      comparator that subtracts the first key from the second. */
  function SortDesc(s: seq<HighScore>, key: HighScore -> int): (r: seq<HighScore>)
    ensures SortedDesc(r, key)
    ensures multiset(r) == multiset(s)
    ensures |r| == |s|
  {
    if s == [] then []
    else
      assert s == [s[0]] + s[1..];
      Insert(s[0], SortDesc(s[1..], key), key)
  }

  function ScoreOf(e: HighScore): int {
    e.score
  }

  /** Every entry left out of a prefix of a sorted list scores no more than
      any entry kept in it. */
  lemma PrefixDominatesRest(sorted: seq<HighScore>, k: nat)
    requires SortedDesc(sorted, ScoreOf)
    requires k <= |sorted|
    ensures forall e, i :: multiset(sorted[..k])[e] < multiset(sorted)[e] && 0 <= i < k ==>
      e.score <= sorted[..k][i].score
  {
    assert sorted == sorted[..k] + sorted[k..];
    forall e, i | multiset(sorted[..k])[e] < multiset(sorted)[e] && 0 <= i < k
      ensures e.score <= sorted[..k][i].score
    {
      assert e in multiset(sorted[k..]);
      var m :| 0 <= m < |sorted[k..]| && sorted[k..][m] == e;
      assert sorted[k + m] == e;
      assert ScoreOf(sorted[i]) >= ScoreOf(sorted[k + m]);
    }
  }

  /** A prefix of a list sorted by score is itself sorted by score. */
  lemma SortedPrefixByScore(s: seq<HighScore>, k: nat)
    requires SortedDesc(s, ScoreOf)
    requires k <= |s|
    ensures forall i, j :: 0 <= i < j < k ==> s[..k][i].score >= s[..k][j].score
  {
    forall i, j | 0 <= i < j < k
      ensures s[..k][i].score >= s[..k][j].score
    {
      assert ScoreOf(s[i]) >= ScoreOf(s[j]);
    }
  }

  /** A prefix holds each entry at most as often as the whole list. */
  lemma PrefixIsSubMultiset(s: seq<HighScore>, k: nat)
    requires k <= |s|
    ensures multiset(s[..k]) <= multiset(s)
    ensures k == |s| ==> multiset(s[..k]) == multiset(s)
  {
    assert s == s[..k] + s[k..];
  }

  /** Every entry of a list holding only tier-`d` entries, counted with
      multiplicity, is an entry of tier `d`. */
  lemma OnlyTier(s: seq<HighScore>, d: Difficulty, e: HighScore)
    requires forall i :: 0 <= i < |s| ==> s[i].difficulty == d
    requires e in multiset(s)
    ensures e.difficulty == d
  {
  }

  /** The leaderboard of tier `d`: its best ten entries, highest score first. */
  function GetTopScores(scores: seq<HighScore>, d: Difficulty): (r: seq<HighScore>)
    ensures |r| == Min(TOP_COUNT, |FilterByDifficulty(scores, d)|)
    ensures forall i :: 0 <= i < |r| ==> r[i].difficulty == d
    ensures forall i, j :: 0 <= i < j < |r| ==> r[i].score >= r[j].score
    ensures multiset(r) <= multiset(scores)
    ensures |FilterByDifficulty(scores, d)| <= TOP_COUNT ==>
      forall e :: multiset(r)[e] == if e.difficulty == d then multiset(scores)[e] else 0
    ensures forall e: HighScore, i :: e.difficulty == d && multiset(r)[e] < multiset(scores)[e] && 0 <= i < |r| ==>
      e.score <= r[i].score
  {
    var matching := FilterByDifficulty(scores, d);
    var sorted := SortDesc(matching, ScoreOf);
    var k := Min(TOP_COUNT, |sorted|);
    var top := sorted[..k];
    PrefixIsSubMultiset(sorted, k);
    PrefixDominatesRest(sorted, k);
    assert forall i :: 0 <= i < k ==> top[i].difficulty == d by {
      forall i | 0 <= i < k ensures top[i].difficulty == d {
        assert top[i] in multiset(matching);
        OnlyTier(matching, d, top[i]);
      }
    }
    SortedPrefixByScore(sorted, k);
    top
  }

  /** All entries, newest first. `time` stands for parsing an entry's date
      into a timestamp. */
  function GetAllScores(scores: seq<HighScore>, time: string -> int): (r: seq<HighScore>)
    ensures multiset(r) == multiset(scores)
    ensures forall i, j :: 0 <= i < j < |r| ==> time(r[i].date) >= time(r[j].date)
  {
    var byDate := (e: HighScore) => time(e.date);
    var r := SortDesc(scores, byDate);
    assert forall i, j :: 0 <= i < j < |r| ==> byDate(r[i]) >= byDate(r[j]);
    r
  }

  /** The stored table. Entries are only ever appended. */
  class HighScoresStore {
    var scores: seq<HighScore>

    constructor ()
      ensures scores == []
    {
      scores := [];
    }

    /** Appends one entry; `date` is the current time, supplied by the caller. */
    method AddScore(score: int, name: string, difficulty: Difficulty, date: string)
      modifies this
      ensures scores == old(scores) + [HighScore(name, score, difficulty, date)]
    {
      scores := scores + [HighScore(name, score, difficulty, date)];
    }
  }
}
