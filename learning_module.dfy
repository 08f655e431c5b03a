/**
 * The module list (src/components/LearningModule.tsx). It keeps the user's
 * progress rows as a list, marks a module completed when some entry for it
 * says so, labels its button Review or Start accordingly, and sends the user
 * to the learning page of a module.
 */
module LearningModule {
  import opened Text
  import opened Remote
  import Catalogue
  import ProgressBar
  import LearningPage

  /** What `getUser` answers; a thrown error counts as `UserError`. */
  datatype UserAnswer = UserError | NoUser | User(id: string)

  const AuthPage := "/auth"

  /** `progressData?.map(p => ({ moduleId: p.module_id, status: p.status })) || []`. */
  function ToProgress(data: Option<seq<ProgressRow>>): (v: seq<ModuleProgress>)
    ensures data.None? ==> v == []
    ensures data.Some? ==> |v| == |data.value|
    ensures data.Some? ==> forall i :: 0 <= i < |v| ==>
      v[i].moduleId == data.value[i].moduleId && v[i].status == data.value[i].status
  {
    if data.None? then []
    else
      var rows := data.value;
      seq(|rows|, i requires 0 <= i < |rows| => ModuleProgress(rows[i].moduleId, rows[i].status))
  }

  /** `moduleProgress.some(p => p.moduleId === key && p.status === 'completed')`. */
  function AnyCompleted(v: seq<ModuleProgress>, key: string): (b: bool)
    ensures b <==> exists i :: 0 <= i < |v| && v[i].moduleId == key && v[i].status == "completed"
  {
    if v == [] then false
    else if v[0].moduleId == key && v[0].status == "completed" then true
    else
      var b := AnyCompleted(v[1..], key);
      assert forall i :: 1 <= i < |v| ==> v[i] == v[1..][i - 1];
      b
  }

  /** Entries whose status is not `completed`, wherever inserted, change no answer. */
  lemma NonCompletedEntriesIrrelevant(front: seq<ModuleProgress>, extra: seq<ModuleProgress>,
                                      back: seq<ModuleProgress>, key: string)
    requires forall i :: 0 <= i < |extra| ==> extra[i].status != "completed"
    ensures AnyCompleted(front + extra + back, key) == AnyCompleted(front + back, key)
  {
    var long, short := front + extra + back, front + back;
    if AnyCompleted(long, key) {
      var i :| 0 <= i < |long| && long[i].moduleId == key && long[i].status == "completed";
      if i < |front| {
        assert short[i] == long[i];
      } else {
        assert i >= |front| + |extra|;
        assert short[i - |extra|] == long[i];
      }
    }
    if AnyCompleted(short, key) {
      var i :| 0 <= i < |short| && short[i].moduleId == key && short[i].status == "completed";
      if i < |front| {
        assert long[i] == short[i];
      } else {
        assert long[i + |extra|] == short[i];
      }
    }
  }

  /** The component's state. */
  class LearningModule {
    const userId: string
    var moduleProgress: seq<ModuleProgress>
    var loading: bool
    /** The targets passed to `router.replace`, oldest first. */
    var redirects: seq<string>
    /** The targets passed to `router.push`, oldest first. */
    var navigations: seq<string>

    constructor(userId: string)
      ensures this.userId == userId
      ensures moduleProgress == [] && loading && redirects == [] && navigations == []
    {
      this.userId := userId;
      moduleProgress := [];
      loading := true;
      redirects := [];
      navigations := [];
    }

    /**
     * `fetchModuleProgress`: an error leaves the list as it was; otherwise it
     * becomes the rows, one entry each and in order (none for null data).
     */
    method FetchModuleProgress(answer: Fetch<seq<ProgressRow>>)
      modifies this
      ensures answer.Failed? ==> moduleProgress == old(moduleProgress)
      ensures answer.Fetched? ==> moduleProgress == ToProgress(answer.data)
      ensures loading == old(loading) && redirects == old(redirects) && navigations == old(navigations)
    {
      if answer.Failed? {
        return;
      }
      moduleProgress := ToProgress(answer.data);
    }

    /**
     * The mount effect. Without a user id only the loading flag clears. With
     * one, `fetchModules` runs: no signed-in user (or an error) redirects to
     * the sign-in page, a user leads to `fetchModuleProgress`; then the
     * loading flag clears.
     */
    method Mount(user: UserAnswer, answer: Fetch<seq<ProgressRow>>)
      modifies this
      ensures !loading && navigations == old(navigations)
      ensures (userId == "" || !user.User?) ==> moduleProgress == old(moduleProgress)
      ensures userId != "" && !user.User? ==> redirects == old(redirects) + [AuthPage]
      ensures (userId == "" || user.User?) ==> redirects == old(redirects)
      ensures userId != "" && user.User? && answer.Failed? ==> moduleProgress == old(moduleProgress)
      ensures userId != "" && user.User? && answer.Fetched? ==> moduleProgress == ToProgress(answer.data)
    {
      if userId != "" {
        if !user.User? {
          redirects := redirects + [AuthPage];
        } else {
          FetchModuleProgress(answer);
        }
      }
      loading := false;
    }

    /** `isModuleCompleted`: some entry for the module's id says `completed`. */
    function IsModuleCompleted(id: int): (b: bool)
      reads this
      ensures b <==> exists i :: (0 <= i < |moduleProgress| &&
        moduleProgress[i].moduleId == IntToString(id) && moduleProgress[i].status == "completed")
    {
      AnyCompleted(moduleProgress, IntToString(id))
    }

    /** The button text: `Review` for a completed module, `Start` otherwise. */
    function ButtonLabel(id: int): (text: string)
      reads this
      ensures text == "Review" <==> IsModuleCompleted(id)
      ensures text == "Start" <==> !IsModuleCompleted(id)
    {
      if IsModuleCompleted(id) then "Review" else "Start"
    }

    /**
     * `handleContinueModule`: go to the module's learning page, whose address
     * names the module's id.
     */
    method ContinueModule(id: int)
      modifies this
      ensures navigations == old(navigations) + [LearningPage.PageUrl(id)]
      ensures LearningPage.TopicIdFromQuery(Some(navigations[|navigations| - 1][|LearningPage.PagePrefix|..])) == Some(id)
      ensures moduleProgress == old(moduleProgress) && loading == old(loading) && redirects == old(redirects)
    {
      navigations := navigations + [LearningPage.PageUrl(id)];
    }
  }

  /**
   * When no module has two rows, the module list and the progress bar agree
   * on which topics are completed.
   */
  lemma CompletionViewsAgree(topics: seq<Catalogue.Topic>, rows: seq<ProgressRow>, i: int)
    requires 0 <= i < |topics|
    requires forall j, k :: 0 <= j < k < |rows| ==> rows[j].moduleId != rows[k].moduleId
    ensures ProgressBar.ProgressVector(topics, rows)[i].status == "completed" <==>
            AnyCompleted(ToProgress(Some(rows)), IntToString(topics[i].id))
  {
    var key := IntToString(topics[i].id);
    var v := ToProgress(Some(rows));
    ProgressBar.ProgressVectorEntry(topics, rows, i);
    if ProgressBar.Occurs(rows, key) {
      var j :| 0 <= j < |rows| && rows[j].moduleId == key;
      assert ProgressBar.LastFor(rows, key, j);
      forall k | 0 <= k < |v| && v[k].moduleId == key ensures k == j {
        assert rows[k].moduleId == key;
      }
    }
  }

  /**
   * With two rows for one module, the views can disagree: the progress bar
   * takes the last row (`in_progress`), the module list any `completed` row.
   */
  lemma CompletionViewsDisagreeOnDuplicates()
    ensures var topics := [Catalogue.Topic(1, "", [])];
      var rows := [ProgressRow("1", "completed"), ProgressRow("1", "in_progress")];
      ProgressBar.ProgressVector(topics, rows)[0].status == "in_progress" &&
      AnyCompleted(ToProgress(Some(rows)), IntToString(1))
  {
    var topics := [Catalogue.Topic(1, "", [])];
    var rows := [ProgressRow("1", "completed"), ProgressRow("1", "in_progress")];
    assert IntToString(1) == "1";
    assert ProgressBar.LastFor(rows, "1", 1);
    ProgressBar.ProgressVectorEntry(topics, rows, 0);
    assert ToProgress(Some(rows))[0].status == "completed";
  }
}
