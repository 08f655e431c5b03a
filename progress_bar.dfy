/**
 * The overall progress bar (src/components/ProgressBar.tsx). It folds the
 * user's progress rows into one status per topic, keeps that list as its
 * state, and shows and reports the share of completed topics as a rounded
 * percentage.
 */
module ProgressBar {
  import opened Text
  import opened Metrics
  import opened Remote
  import Catalogue

  /** The rows of an answer; null data (`data?.forEach`) contributes none. */
  function RowsOf(data: Option<seq<ProgressRow>>): (rows: seq<ProgressRow>)
    ensures data.Some? ==> rows == data.value
    ensures data.None? ==> rows == []
  {
    if data.Some? then data.value else []
  }

  /** The `progressMap` after setting every row's status under its module id, in order. */
  function StatusMap(rows: seq<ProgressRow>): map<string, string>
  {
    if rows == [] then map[]
    else
      var last := rows[|rows| - 1];
      StatusMap(rows[..|rows| - 1])[last.moduleId := last.status]
  }

  /** Row `i` is the last row for module id `key`. */
  ghost predicate LastFor(rows: seq<ProgressRow>, key: string, i: int)
  {
    0 <= i < |rows| && rows[i].moduleId == key &&
    forall j :: i < j < |rows| ==> rows[j].moduleId != key
  }

  /** Some row names module id `key`. */
  ghost predicate Occurs(rows: seq<ProgressRow>, key: string)
  {
    exists i :: 0 <= i < |rows| && rows[i].moduleId == key
  }

  /** The map holds exactly the ids that occur, each with the status of its last row. */
  lemma {:induction false} LastRowWins(rows: seq<ProgressRow>, key: string)
    ensures key in StatusMap(rows) <==> Occurs(rows, key)
    ensures forall i :: LastFor(rows, key, i) ==> StatusMap(rows)[key] == rows[i].status
  {
    if rows != [] {
      var n := |rows| - 1;
      var init := rows[..n];
      var m := StatusMap(rows);
      assert m == StatusMap(init)[rows[n].moduleId := rows[n].status];
      LastRowWins(init, key);
      if rows[n].moduleId == key {
        assert Occurs(rows, key) by {
          assert rows[n].moduleId == key;
        }
        forall i | LastFor(rows, key, i) ensures i == n {
        }
      } else {
        assert Occurs(rows, key) <==> Occurs(init, key) by {
          if Occurs(rows, key) {
            var i :| 0 <= i < |rows| && rows[i].moduleId == key;
            assert init[i] == rows[i];
          }
          if Occurs(init, key) {
            var i :| 0 <= i < |init| && init[i].moduleId == key;
            assert rows[i] == init[i];
          }
        }
        forall i | LastFor(rows, key, i) ensures LastFor(init, key, i) {
        }
      }
    }
  }

  /** `progressMap.get(id) || 'not_started'`: a missing or empty status reads as not started. */
  function StatusOr(m: map<string, string>, key: string): string
  {
    if key in m && m[key] != "" then m[key] else "not_started"
  }

  /** `topics.map(...)`: one entry per topic, in topic order, keyed by the topic id's decimal text. */
  function PerTopic(topics: seq<Catalogue.Topic>, m: map<string, string>): seq<ModuleProgress>
  {
    seq(|topics|, i requires 0 <= i < |topics| =>
      ModuleProgress(IntToString(topics[i].id), StatusOr(m, IntToString(topics[i].id))))
  }

  /** The list `fetchProgress` stores for the rows of one answer. */
  function ProgressVector(topics: seq<Catalogue.Topic>, rows: seq<ProgressRow>): seq<ModuleProgress>
  {
    PerTopic(topics, StatusMap(rows))
  }

  /**
   * Entry `i` belongs to topic `i`; its status is that of the last row for
   * the topic (an empty one reading as not started), or `not_started` when
   * no row names the topic.
   */
  lemma ProgressVectorEntry(topics: seq<Catalogue.Topic>, rows: seq<ProgressRow>, i: int)
    requires 0 <= i < |topics|
    ensures |ProgressVector(topics, rows)| == |topics|
    ensures ProgressVector(topics, rows)[i].moduleId == IntToString(topics[i].id)
    ensures !Occurs(rows, IntToString(topics[i].id)) ==>
              ProgressVector(topics, rows)[i].status == "not_started"
    ensures forall j :: LastFor(rows, IntToString(topics[i].id), j) ==>
              ProgressVector(topics, rows)[i].status == (if rows[j].status == "" then "not_started" else rows[j].status)
  {
    LastRowWins(rows, IntToString(topics[i].id));
  }

  /** The row names the id of one of the topics. */
  predicate MatchesTopic(topics: seq<Catalogue.Topic>, row: ProgressRow)
  {
    exists i :: 0 <= i < |topics| && IntToString(topics[i].id) == row.moduleId
  }

  /** The rows that name a topic, in their order. */
  function KeepMatching(topics: seq<Catalogue.Topic>, rows: seq<ProgressRow>): (kept: seq<ProgressRow>)
    ensures forall r :: r in kept ==> r in rows && MatchesTopic(topics, r)
  {
    if rows == [] then []
    else
      var last := rows[|rows| - 1];
      KeepMatching(topics, rows[..|rows| - 1]) + (if MatchesTopic(topics, last) then [last] else [])
  }

  /** Appending a row sets its module id's entry. */
  lemma StatusMapSnoc(rows: seq<ProgressRow>, r: ProgressRow)
    ensures StatusMap(rows + [r]) == StatusMap(rows)[r.moduleId := r.status]
  {
    assert (rows + [r])[..|rows|] == rows;
  }

  /** Appending a row keeps it exactly when it names a topic. */
  lemma KeepMatchingSnoc(topics: seq<Catalogue.Topic>, rows: seq<ProgressRow>, r: ProgressRow)
    ensures KeepMatching(topics, rows + [r]) ==
            KeepMatching(topics, rows) + (if MatchesTopic(topics, r) then [r] else [])
  {
    assert (rows + [r])[..|rows|] == rows;
  }

  /** Dropping rows that name no topic leaves every topic's map entry as it was. */
  lemma {:induction false} KeepMatchingSameEntry(topics: seq<Catalogue.Topic>, rows: seq<ProgressRow>, i: int)
    requires 0 <= i < |topics|
    ensures var key := IntToString(topics[i].id);
      StatusOr(StatusMap(KeepMatching(topics, rows)), key) == StatusOr(StatusMap(rows), key)
  {
    if rows != [] {
      var key := IntToString(topics[i].id);
      var init, last := rows[..|rows| - 1], rows[|rows| - 1];
      assert rows == init + [last];
      KeepMatchingSameEntry(topics, init, i);
      var kept := KeepMatching(topics, init);
      KeepMatchingSnoc(topics, init, last);
      StatusMapSnoc(init, last);
      var before := StatusMap(init);
      assert StatusMap(rows) == before[last.moduleId := last.status];
      StatusOrUpdate(before, last.moduleId, last.status, key);
      if MatchesTopic(topics, last) {
        StatusMapSnoc(kept, last);
        assert StatusMap(KeepMatching(topics, rows)) == StatusMap(kept)[last.moduleId := last.status];
        StatusOrUpdate(StatusMap(kept), last.moduleId, last.status, key);
      } else {
        assert KeepMatching(topics, rows) == kept;
        assert last.moduleId != key;
      }
    }
  }

  /** Setting one entry changes what `StatusOr` reads for that key only. */
  lemma StatusOrUpdate(m: map<string, string>, k: string, v: string, key: string)
    ensures StatusOr(m[k := v], key) == if k == key then StatusOr(map[k := v], key) else StatusOr(m, key)
  {
  }

  /** Rows whose module id matches no topic id have no effect on the list. */
  lemma UnmatchedRowsIgnored(topics: seq<Catalogue.Topic>, rows: seq<ProgressRow>)
    ensures ProgressVector(topics, KeepMatching(topics, rows)) == ProgressVector(topics, rows)
  {
    forall i | 0 <= i < |topics|
      ensures ProgressVector(topics, KeepMatching(topics, rows))[i] == ProgressVector(topics, rows)[i]
    {
      KeepMatchingSameEntry(topics, rows, i);
    }
  }

  /** `progress.filter(m => m.status === 'completed').length`. */
  function CompletedCount(v: seq<ModuleProgress>): (n: nat)
    ensures n <= |v|
    ensures n == 0 <==> forall i :: 0 <= i < |v| ==> v[i].status != "completed"
    ensures n == |v| <==> forall i :: 0 <= i < |v| ==> v[i].status == "completed"
  {
    if v == [] then 0
    else
      var init := v[..|v| - 1];
      CompletedCount(init) + (if v[|v| - 1].status == "completed" then 1 else 0)
  }

  /**
   * `Math.round((completedModules / topics.length) * 100)`: the rounded share
   * of completed entries, always over the number of topics.
   */
  function Percentage(v: seq<ModuleProgress>, total: nat): (p: nat)
    requires total > 0
    ensures CompletedCount(v) == 0 ==> p == 0
    ensures |v| <= total ==> p <= 100
    ensures |v| <= total < 200 ==> (p == 0 <==> CompletedCount(v) == 0)
    ensures |v| <= total < 200 ==> (p == 100 <==> CompletedCount(v) == total)
  {
    var c := CompletedCount(v);
    PercentEnds(total);
    if |v| <= total < 200 then PercentExtremes(c, total); RoundedPercent(c, total)
    else RoundedPercent(c, total)
  }

  /** The component's state: the per-topic list, the loading flag and what it reported. */
  class ProgressBar {
    /** The imported topic table. */
    const topics: seq<Catalogue.Topic>
    var moduleProgress: seq<ModuleProgress>
    var isLoading: bool
    /** The percentages handed to `onProgressUpdate`, oldest first. */
    var reported: seq<nat>

    /** Fifteen topics, and a list that is empty or has one entry per topic. */
    ghost predicate Valid()
      reads this
    {
      |topics| == 15 && (|moduleProgress| == 0 || |moduleProgress| == |topics|)
    }

    constructor()
      ensures topics == Catalogue.Topics()
      ensures moduleProgress == [] && isLoading && reported == []
      ensures Valid()
    {
      topics := Catalogue.GetTopics();
      Catalogue.TopicCount();
      moduleProgress := [];
      isLoading := true;
      reported := [];
    }

    /** The percentage the bar renders from the current state. */
    function Rendered(): (p: nat)
      reads this
      requires Valid()
      ensures p <= 100
    {
      Percentage(moduleProgress, |topics|)
    }

    /**
     * `fetchProgress`: on an error nothing but the loading flag changes;
     * otherwise the rows are folded into the map in order, the per-topic list
     * replaces the state, and its percentage is reported. Either way the
     * loading flag ends false.
     */
    method FetchProgress(answer: Fetch<seq<ProgressRow>>)
      requires Valid()
      modifies this
      ensures Valid() && !isLoading
      ensures answer.Failed? ==> moduleProgress == old(moduleProgress) && reported == old(reported)
      ensures answer.Fetched? ==>
        moduleProgress == ProgressVector(topics, RowsOf(answer.data)) &&
        reported == old(reported) + [Rendered()]
    {
      if answer.Failed? {
        isLoading := false;
        return;
      }
      var rows := RowsOf(answer.data);
      var progressMap: map<string, string> := map[];
      var i := 0;
      while i < |rows|
        invariant 0 <= i <= |rows|
        invariant progressMap == StatusMap(rows[..i])
      {
        assert rows[..i + 1][..i] == rows[..i];
        progressMap := progressMap[rows[i].moduleId := rows[i].status];
        i := i + 1;
      }
      assert rows[..i] == rows;
      var progress := PerTopic(topics, progressMap);
      moduleProgress := progress;
      var percentage := Percentage(progress, |topics|);
      reported := reported + [percentage];
      isLoading := false;
    }
  }

  /**
   * After a fetch over fifteen topics the bar shows 0% exactly when no topic
   * is completed and 100% exactly when all are.
   */
  lemma FetchedPercentageEnds(topics: seq<Catalogue.Topic>, rows: seq<ProgressRow>)
    requires |topics| == 15
    ensures var v := ProgressVector(topics, rows);
      (Percentage(v, |topics|) == 0 <==> forall i :: 0 <= i < |v| ==> v[i].status != "completed") &&
      (Percentage(v, |topics|) == 100 <==> forall i :: 0 <= i < |v| ==> v[i].status == "completed")
  {
    var v := ProgressVector(topics, rows);
    assert |v| == |topics|;
  }
}
