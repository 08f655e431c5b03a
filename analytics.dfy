/**
 * The analytics page (src/app/analytics/page.tsx). It checks the session,
 * redirects to the sign-in page without one, and otherwise computes the same
 * statistics as the statistics card, dividing by the total it keeps in its
 * own state.
 */
module Analytics {
  import opened Text
  import opened Metrics
  import opened Remote
  import Catalogue
  import StatsCard

  /** What `getSession` answers. */
  datatype SessionAnswer = SessionError | NoSession | Session(userId: string)

  /** The sign-in page every failed check sends the user to. */
  const AuthPage := "/auth"

  class AnalyticsPage {
    var isLoading: bool
    var userId: Option<string>
    var stats: LearningStats
    /** Whether the auth-state listener has been registered. */
    var listening: bool
    /** The targets passed to `router.replace`, oldest first. */
    var redirects: seq<string>

    /** The record always counts out of the fifteen topics. */
    ghost predicate Valid()
      reads this
    {
      stats.totalModules == 15
    }

    constructor()
      ensures isLoading && userId == None && !listening && redirects == []
      ensures stats == InitialStats(|Catalogue.Topics()|)
      ensures Valid()
    {
      Catalogue.TopicCount();
      isLoading := true;
      userId := None;
      stats := InitialStats(|Catalogue.GetTopics()|);
      listening := false;
      redirects := [];
    }

    /**
     * `fetchLearningStats`: like the statistics card's, except that it
     * divides by the `totalModules` already in the state and carries that
     * total over unchanged.
     */
    method FetchLearningStats(answer: Fetch<seq<ProgressRow>>)
      requires Valid()
      modifies this
      ensures Valid()
      ensures stats.totalModules == old(stats.totalModules)
      ensures answer.Failed? ==> stats == old(stats)
      ensures answer.Fetched? ==> stats == ComputedStats(CountOrZero(answer.data), old(stats.totalModules))
      ensures isLoading == old(isLoading) && userId == old(userId)
      ensures listening == old(listening) && redirects == old(redirects)
    {
      if answer.Failed? {
        return;
      }
      var completedModules := CountOrZero(answer.data);
      var progressRate := RoundedPercent(completedModules, stats.totalModules);
      var activeTime := ActiveTime(completedModules);
      var engagement := EngagementLevel(completedModules, stats.totalModules);
      stats := LearningStats(completedModules, stats.totalModules, activeTime, progressRate, engagement);
    }

    /**
     * `initializeAuth`: a session error or a missing session redirects to the
     * sign-in page; a session sets the user, fetches the statistics and
     * registers the listener. The loading flag ends false in every case.
     */
    method InitializeAuth(session: SessionAnswer, answer: Fetch<seq<ProgressRow>>)
      requires Valid()
      modifies this
      ensures Valid() && !isLoading
      ensures !session.Session? ==>
        redirects == old(redirects) + [AuthPage] && stats == old(stats) &&
        userId == old(userId) && listening == old(listening)
      ensures session.Session? ==>
        redirects == old(redirects) && userId == Some(session.userId) && listening &&
        (answer.Failed? ==> stats == old(stats)) &&
        (answer.Fetched? ==> stats == ComputedStats(CountOrZero(answer.data), 15))
    {
      match session {
        case SessionError =>
          redirects := redirects + [AuthPage];
        case NoSession =>
          redirects := redirects + [AuthPage];
        case Session(uid) =>
          userId := Some(uid);
          FetchLearningStats(answer);
          listening := true;
      }
      isLoading := false;
    }

    /**
     * The auth-state listener: signing out redirects; any other event with a
     * session sets the user and fetches again; without a session nothing
     * happens.
     */
    method OnAuthStateChange(event: AuthEvent, session: Option<string>, answer: Fetch<seq<ProgressRow>>)
      requires Valid() && listening
      modifies this
      ensures Valid() && listening && isLoading == old(isLoading)
      ensures event.SignedOut? ==>
        redirects == old(redirects) + [AuthPage] && stats == old(stats) && userId == old(userId)
      ensures !event.SignedOut? && session.None? ==>
        redirects == old(redirects) && stats == old(stats) && userId == old(userId)
      ensures !event.SignedOut? && session.Some? ==>
        redirects == old(redirects) && userId == session &&
        (answer.Failed? ==> stats == old(stats)) &&
        (answer.Fetched? ==> stats == ComputedStats(CountOrZero(answer.data), 15))
    {
      if event.SignedOut? {
        redirects := redirects + [AuthPage];
      } else if session.Some? {
        userId := session;
        FetchLearningStats(answer);
      }
    }
  }

  /**
   * Given the same answer, the analytics page and the statistics card end up
   * with the same record.
   */
  method SameAnswerSameStats(page: AnalyticsPage, card: StatsCard.StatsCard, answer: Fetch<seq<ProgressRow>>)
    requires page.Valid() && card.Valid() && page.stats == card.stats
    modifies page, card
    ensures page.stats == card.stats
  {
    page.FetchLearningStats(answer);
    card.FetchLearningStats(answer);
  }
}
