/**
 * The statistics card (src/components/StatsCard.tsx). It counts the user's
 * completed progress rows and derives from that count the completion rate,
 * the active time and the engagement tier, over the number of topics.
 */
module StatsCard {
  import opened Metrics
  import opened Remote
  import Catalogue

  class StatsCard {
    /** The imported topic table. */
    const topics: seq<Catalogue.Topic>
    var stats: LearningStats

    /** Fifteen topics, and the record always counts out of all of them. */
    ghost predicate Valid()
      reads this
    {
      |topics| == 15 && stats.totalModules == |topics|
    }

    /** The initial record: 0 of all topics, "0h", 0% and `Low`. */
    constructor()
      ensures topics == Catalogue.Topics()
      ensures stats == InitialStats(|topics|)
      ensures Valid()
    {
      topics := Catalogue.GetTopics();
      Catalogue.TopicCount();
      stats := InitialStats(|Catalogue.GetTopics()|);
    }

    /**
     * `fetchLearningStats`: an error leaves the record as it was; otherwise
     * the completed rows are counted (null data counting as none) and the
     * record is replaced by the statistics of that count.
     */
    method FetchLearningStats(answer: Fetch<seq<ProgressRow>>)
      requires Valid()
      modifies this
      ensures Valid()
      ensures answer.Failed? ==> stats == old(stats)
      ensures answer.Fetched? ==> stats == ComputedStats(CountOrZero(answer.data), |topics|)
    {
      if answer.Failed? {
        return;
      }
      var completedModules := CountOrZero(answer.data);
      var totalModules := |topics|;
      var progressRate := RoundedPercent(completedModules, totalModules);
      var activeTime := ActiveTime(completedModules);
      var engagementLevel := EngagementLevel(completedModules, totalModules);
      stats := LearningStats(completedModules, totalModules, activeTime, progressRate, engagementLevel);
    }
  }
}
