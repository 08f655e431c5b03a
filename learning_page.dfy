/**
 * The learning page of one topic (src/components/LearningPage.tsx): the topic
 * chosen by the address, the quiz answer and its feedback, the completed
 * flag, the drawing upload, and the Previous/Next buttons.
 */
module LearningPage {
  import opened Text
  import opened Metrics
  import opened Remote
  import Catalogue

  /** The prefix of a learning page address; the topic id follows it. */
  const PagePrefix := "/learning?topic="

  /**
   * `parseInt(searchParams.get('topic') || '1')`: a missing or empty
   * parameter means topic 1; `None` stands for NaN.
   */
  function TopicIdFromQuery(param: Option<string>): (id: Option<int>)
    ensures param.None? || param == Some("") ==> id == Some(1)
  {
    var text := if param.None? || param.value == "" then "1" else param.value;
    assert ParseInt("1") == Some(1) by {
      ParseUnsigned(1, []);
      assert Decimal(1) + [] == "1";
    }
    ParseInt(text)
  }

  /** `/learning?topic=${id}`: the address of a topic's page, whose parameter reads back as the id. */
  function PageUrl(id: int): (url: string)
    ensures StartsWith(url, PagePrefix)
    ensures TopicIdFromQuery(Some(url[|PagePrefix|..])) == Some(id)
  {
    var url := PagePrefix + IntToString(id);
    assert url[|PagePrefix|..] == IntToString(id) + [];
    ParseIntRoundTrip(id, []);
    url
  }

  /** The answer of the completion query, which asks for a single row. */
  datatype SingleAnswer = Found | SingleError(code: string)

  /** The error code of `.single()` when the number of rows is not one. */
  const NoSingleRow := "PGRST116"

  /** The part of a browser `File` the page reads. */
  datatype File = File(name: string, mimeType: string)

  /** A row inserted into the `drawings` table. */
  datatype DrawingRow = DrawingRow(userId: string, moduleId: string, filePath: string, fileUrl: string, createdAt: string)

  /** The three messages the page shows with `alert`. */
  datatype Alert = NotAnImage | Uploaded | UploadFailed

  /**
   * `drawings/${userId}/${Date.now()}.${fileExt}` with `fileExt` the text
   * after the last `.` of the file name.
   */
  function StoragePath(userId: string, now: nat, fileName: string): string
  {
    "drawings/" + userId + "/" + Decimal(now) + ['.'] + AfterLast(fileName, '.')
  }

  /**
   * The path lies in the user's folder, the part after the folder reads back
   * as the time stamp, and the path ends in the file's extension.
   */
  lemma StoragePathParts(userId: string, now: nat, fileName: string)
    ensures var folder := "drawings/" + userId + "/";
      var path := StoragePath(userId, now, fileName);
      && StartsWith(path, folder)
      && ParseInt(path[|folder|..]) == Some(now)
      && AfterLast(path, '.') == AfterLast(fileName, '.')
  {
    var folder := "drawings/" + userId + "/";
    var front := folder + Decimal(now);
    var ext := AfterLast(fileName, '.');
    var path := front + ['.'] + ext;
    assert path == StoragePath(userId, now, fileName);
    AfterLastOfJoin(front, '.', ext);
    assert path[..|folder|] == folder;
    assert path[|folder|..] == Decimal(now) + (['.'] + ext);
    ParseUnsigned(now, ['.'] + ext);
  }

  /** The file extension the path keeps: the last `.`-separated part, or the whole name without a `.`. */
  lemma StoragePathExtension(userId: string, now: nat, base: string, ext: string)
    requires '.' !in ext
    ensures AfterLast(StoragePath(userId, now, base + "." + ext), '.') == ext
    ensures AfterLast(StoragePath(userId, now, ext), '.') == ext
  {
    StoragePathParts(userId, now, base + "." + ext);
    StoragePathParts(userId, now, ext);
    AfterLastOfJoin(base, '.', ext);
    AfterLastWithoutSeparator(ext, '.');
  }

  /** The line under a quiz: nothing before an answer, then right or the correct answer. */
  datatype Feedback = NoFeedback | Correct | Incorrect(shown: string)

  /**
   * The feedback of a quiz: hidden until revealed, then `Correct` when the
   * selected answer is the correct one; otherwise the correct answer is shown
   * (as "undefined" when the quiz names none).
   */
  function QuizFeedback(show: bool, selected: Option<string>, correct: Option<string>): (f: Feedback)
    ensures f == NoFeedback <==> !show
    ensures f == Correct <==> show && selected.Some? && selected == correct
  {
    if !show then NoFeedback
    else if selected.Some? && selected == correct then Correct
    else Incorrect(if correct.Some? then correct.value else "undefined")
  }

  /** The colour of an option button. */
  datatype Colour = Plain | Green | Red

  /**
   * Before the reveal every option is plain; after it the correct option is
   * green, the selected one red if it is not the correct one, the rest plain.
   */
  function OptionColour(show: bool, selected: Option<string>, correct: Option<string>, option: string): Colour
  {
    if !show then Plain
    else if correct == Some(option) then Green
    else if selected == Some(option) then Red
    else Plain
  }

  /** The button variant: filled for the selected option, outlined otherwise. */
  function OptionFilled(selected: Option<string>, option: string): (filled: bool)
    ensures filled <==> selected == Some(option)
  {
    selected == Some(option)
  }

  /**
   * Once an option has been clicked, its colour agrees with the feedback:
   * green with "Correct", red otherwise; and no option other than the
   * clicked one and the correct one is coloured.
   */
  lemma ClickedColourMatchesFeedback(selected: string, correct: Option<string>, option: string)
    ensures forall prior: Option<string> :: OptionColour(false, prior, correct, option) == Plain
    ensures OptionColour(true, Some(selected), correct, selected) == Green <==>
            QuizFeedback(true, Some(selected), correct) == Correct
    ensures OptionColour(true, Some(selected), correct, selected) == Red <==>
            QuizFeedback(true, Some(selected), correct).Incorrect?
    ensures correct == Some(option) ==> OptionColour(true, Some(selected), correct, option) == Green
    ensures option != selected && correct != Some(option) ==>
            OptionColour(true, Some(selected), correct, option) == Plain
  {
  }

  /** The page's state for one topic id. */
  class LearningPage {
    const userId: string
    /** The `topic` search parameter, parsed on every render. */
    var topicId: int
    /** The imported topic table. */
    const topics: seq<Catalogue.Topic>
    var topic: Option<Catalogue.Topic>
    var isLoading: bool
    var completed: bool
    var selectedAnswer: Option<string>
    var showCorrectAnswer: bool
    var selectedImage: Option<File>
    var imagePreview: Option<string>
    /** The percentages handed to `onProgressUpdate`, oldest first. */
    var reported: seq<nat>
    /** The module ids sent to the `progress` upsert, oldest first. */
    var upserts: seq<string>
    /** The storage paths uploaded to, oldest first. */
    var uploads: seq<string>
    /** The rows sent to the `drawings` table, oldest first. */
    var drawings: seq<DrawingRow>
    var alerts: seq<Alert>
    /** The targets passed to `router.push`, oldest first. */
    var navigations: seq<string>

    /** The table has topics 1..15 in order, and a shown topic is the one `getTopic` finds. */
    ghost predicate Valid()
      reads this
    {
      && TableShape()
      && (topic.None? || topic == Catalogue.FindTopic(topics, topicId))
    }

    /** The table has topics 1..15 in order. */
    ghost predicate TableShape()
      reads this
    {
      && |topics| == 15
      && (forall i :: 0 <= i < |topics| ==> topics[i].id == i + 1)
    }

    constructor(userId: string, topicId: int)
      ensures this.userId == userId && this.topicId == topicId
      ensures topics == Catalogue.Topics()
      ensures topic == None && isLoading && !completed
      ensures selectedAnswer == None && !showCorrectAnswer
      ensures selectedImage == None && imagePreview == None
      ensures reported == [] && upserts == [] && uploads == [] && drawings == []
      ensures alerts == [] && navigations == []
      ensures Valid()
    {
      this.userId := userId;
      this.topicId := topicId;
      topics := Catalogue.GetTopics();
      Catalogue.TopicIdsConsecutive();
      topic := None;
      isLoading := true;
      completed := false;
      selectedAnswer := None;
      showCorrectAnswer := false;
      selectedImage := None;
      imagePreview := None;
      reported := [];
      upserts := [];
      uploads := [];
      drawings := [];
      alerts := [];
      navigations := [];
    }

    /**
     * `loadTopic`: clears the quiz answer, looks the topic up, sets the
     * completed flag from the single-row query (the "not one row" error
     * counts as not completed, any other error stops here), then reports the
     * overall percentage unless that query fails. Loading ends false.
     */
    method LoadTopic(single: SingleAnswer, count: Fetch<seq<ProgressRow>>)
      requires TableShape()
      modifies this
      ensures topicId == old(topicId)
      ensures Valid() && !isLoading
      ensures selectedAnswer == None && !showCorrectAnswer
      ensures topic == Catalogue.FindTopic(topics, topicId)
      ensures single.SingleError? && single.code != NoSingleRow ==>
        completed == old(completed) && reported == old(reported)
      ensures !(single.SingleError? && single.code != NoSingleRow) ==>
        completed == single.Found? &&
        reported == old(reported) + (if count.Failed? then [] else [RoundedPercent(CountOrZero(count.data), |topics|)])
      ensures selectedImage == old(selectedImage) && imagePreview == old(imagePreview)
      ensures upserts == old(upserts) && uploads == old(uploads) && drawings == old(drawings)
      ensures alerts == old(alerts) && navigations == old(navigations)
    {
      isLoading := true;
      selectedAnswer := None;
      showCorrectAnswer := false;
      topic := Catalogue.FindTopic(topics, topicId);
      if single.SingleError? && single.code != NoSingleRow {
        isLoading := false;
        return;
      }
      completed := single.Found?;
      if count.Failed? {
        isLoading := false;
        return;
      }
      var completedModules := CountOrZero(count.data);
      var progress := RoundedPercent(completedModules, |topics|);
      reported := reported + [progress];
      isLoading := false;
    }

    /**
     * A new `topic` search parameter. The page stays mounted, so only the id
     * changes and the effect runs `loadTopic` again: the quiz answer is
     * cleared, but the completed flag (when the completion query fails) and a
     * pending drawing carry over to the new topic.
     */
    method ChangeTopic(id: int, single: SingleAnswer, count: Fetch<seq<ProgressRow>>)
      requires Valid()
      modifies this
      ensures Valid() && topicId == id && !isLoading
      ensures topic == Catalogue.FindTopic(topics, id)
      ensures selectedAnswer == None && !showCorrectAnswer
      ensures single.SingleError? && single.code != NoSingleRow ==>
        completed == old(completed) && reported == old(reported)
      ensures !(single.SingleError? && single.code != NoSingleRow) ==>
        completed == single.Found? &&
        reported == old(reported) + (if count.Failed? then [] else [RoundedPercent(CountOrZero(count.data), |topics|)])
      ensures selectedImage == old(selectedImage) && imagePreview == old(imagePreview)
      ensures upserts == old(upserts) && uploads == old(uploads) && drawings == old(drawings)
      ensures alerts == old(alerts) && navigations == old(navigations)
    {
      topicId := id;
      LoadTopic(single, count);
    }

    /**
     * `handleMarkAsCompleted`: sends the upsert; only when it succeeds does
     * the flag become true, and then the percentage is reported unless the
     * count query fails.
     */
    method MarkAsCompleted(upsertOk: bool, count: Fetch<seq<ProgressRow>>)
      requires Valid()
      modifies this
      ensures topicId == old(topicId)
      ensures Valid()
      ensures upserts == old(upserts) + [IntToString(topicId)]
      ensures completed == (old(completed) || upsertOk)
      ensures !upsertOk || count.Failed? ==> reported == old(reported)
      ensures upsertOk && count.Fetched? ==>
        reported == old(reported) + [RoundedPercent(CountOrZero(count.data), |topics|)]
      ensures topic == old(topic) && isLoading == old(isLoading)
      ensures selectedAnswer == old(selectedAnswer) && showCorrectAnswer == old(showCorrectAnswer)
      ensures selectedImage == old(selectedImage) && imagePreview == old(imagePreview)
      ensures uploads == old(uploads) && drawings == old(drawings)
      ensures alerts == old(alerts) && navigations == old(navigations)
    {
      upserts := upserts + [IntToString(topicId)];
      if !upsertOk {
        return;
      }
      completed := true;
      if count.Failed? {
        return;
      }
      var completedModules := CountOrZero(count.data);
      var progress := RoundedPercent(completedModules, |topics|);
      reported := reported + [progress];
    }

    /** The Mark button is disabled while the topic counts as completed. */
    predicate MarkDisabled()
      reads this
    {
      completed
    }

    /** A press on the Mark button: ignored while disabled, otherwise `handleMarkAsCompleted`. */
    method PressMark(upsertOk: bool, count: Fetch<seq<ProgressRow>>)
      requires Valid()
      modifies this
      ensures topicId == old(topicId)
      ensures Valid()
      ensures old(MarkDisabled()) ==> upserts == old(upserts) && completed && reported == old(reported)
      ensures !old(MarkDisabled()) ==> upserts == old(upserts) + [IntToString(topicId)] && completed == upsertOk
      ensures !old(MarkDisabled()) && (!upsertOk || count.Failed?) ==> reported == old(reported)
      ensures !old(MarkDisabled()) && upsertOk && count.Fetched? ==>
        reported == old(reported) + [RoundedPercent(CountOrZero(count.data), |topics|)]
      ensures topic == old(topic) && isLoading == old(isLoading)
      ensures selectedAnswer == old(selectedAnswer) && showCorrectAnswer == old(showCorrectAnswer)
      ensures selectedImage == old(selectedImage) && imagePreview == old(imagePreview)
      ensures uploads == old(uploads) && drawings == old(drawings)
      ensures alerts == old(alerts) && navigations == old(navigations)
    {
      if !MarkDisabled() {
        MarkAsCompleted(upsertOk, count);
      }
    }

    /** A click on a quiz option: select it and reveal the answer. */
    method ClickOption(option: string)
      requires Valid()
      modifies this
      ensures topicId == old(topicId)
      ensures Valid()
      ensures selectedAnswer == Some(option) && showCorrectAnswer
      ensures topic == old(topic) && isLoading == old(isLoading) && completed == old(completed)
      ensures selectedImage == old(selectedImage) && imagePreview == old(imagePreview)
      ensures reported == old(reported) && upserts == old(upserts) && uploads == old(uploads)
      ensures drawings == old(drawings) && alerts == old(alerts) && navigations == old(navigations)
    {
      selectedAnswer := Some(option);
      showCorrectAnswer := true;
    }

    /**
     * `handleImageSelect`: an image file becomes the selection (its preview
     * arrives later); anything else, or no file, only raises the alert.
     */
    method SelectImage(file: Option<File>)
      requires Valid()
      modifies this
      ensures topicId == old(topicId)
      ensures Valid()
      ensures file.Some? && StartsWith(file.value.mimeType, "image/") ==>
        selectedImage == file && alerts == old(alerts)
      ensures !(file.Some? && StartsWith(file.value.mimeType, "image/")) ==>
        selectedImage == old(selectedImage) && alerts == old(alerts) + [NotAnImage]
      ensures imagePreview == old(imagePreview)
      ensures topic == old(topic) && isLoading == old(isLoading) && completed == old(completed)
      ensures selectedAnswer == old(selectedAnswer) && showCorrectAnswer == old(showCorrectAnswer)
      ensures reported == old(reported) && upserts == old(upserts) && uploads == old(uploads)
      ensures drawings == old(drawings) && navigations == old(navigations)
    {
      if file.Some? && StartsWith(file.value.mimeType, "image/") {
        selectedImage := file;
      } else {
        alerts := alerts + [NotAnImage];
      }
    }

    /** The file reader has finished: its data URL becomes the preview. */
    method PreviewLoaded(dataUrl: string)
      requires Valid()
      modifies this
      ensures topicId == old(topicId)
      ensures Valid()
      ensures imagePreview == Some(dataUrl) && selectedImage == old(selectedImage)
      ensures topic == old(topic) && isLoading == old(isLoading) && completed == old(completed)
      ensures selectedAnswer == old(selectedAnswer) && showCorrectAnswer == old(showCorrectAnswer)
      ensures reported == old(reported) && upserts == old(upserts) && uploads == old(uploads)
      ensures drawings == old(drawings) && alerts == old(alerts) && navigations == old(navigations)
    {
      imagePreview := Some(dataUrl);
    }

    /** The `drawings` row recorded for a file uploaded at time `now`. */
    function UploadedRow(now: nat, file: File, publicUrl: string, createdAt: string): (row: DrawingRow)
      reads this
      ensures row.userId == userId && row.moduleId == IntToString(topicId)
      ensures row.filePath == StoragePath(userId, now, file.name) && row.fileUrl == publicUrl
    {
      DrawingRow(userId, IntToString(topicId), StoragePath(userId, now, file.name), publicUrl, createdAt)
    }

    /**
     * `handleImageUpload`: without a selection nothing happens. Otherwise the
     * file goes to its storage path; if that fails, or the row insert that
     * follows fails, the error alert is raised and the selection kept; on
     * success the success alert is raised and selection and preview clear.
     */
    method UploadImage(now: nat, uploadOk: bool, publicUrl: string, createdAt: string, insertOk: bool)
      requires Valid()
      modifies this
      ensures topicId == old(topicId)
      ensures Valid()
      ensures old(selectedImage).None? ==>
        uploads == old(uploads) && drawings == old(drawings) && alerts == old(alerts) &&
        selectedImage == old(selectedImage) && imagePreview == old(imagePreview)
      ensures old(selectedImage).Some? ==>
        uploads == old(uploads) + [StoragePath(userId, now, old(selectedImage).value.name)]
      ensures old(selectedImage).Some? ==>
        drawings == old(drawings) + (if uploadOk then [UploadedRow(now, old(selectedImage).value, publicUrl, createdAt)] else [])
      ensures old(selectedImage).Some? && uploadOk && insertOk ==>
        alerts == old(alerts) + [Uploaded] && selectedImage == None && imagePreview == None
      ensures old(selectedImage).Some? && !(uploadOk && insertOk) ==>
        alerts == old(alerts) + [UploadFailed] && selectedImage == old(selectedImage) &&
        imagePreview == old(imagePreview)
      ensures topic == old(topic) && isLoading == old(isLoading) && completed == old(completed)
      ensures selectedAnswer == old(selectedAnswer) && showCorrectAnswer == old(showCorrectAnswer)
      ensures reported == old(reported) && upserts == old(upserts) && navigations == old(navigations)
    {
      if selectedImage.Some? {
        var file := selectedImage.value;
        uploads := uploads + [StoragePath(userId, now, file.name)];
        if !uploadOk {
          alerts := alerts + [UploadFailed];
        } else {
          drawings := drawings + [UploadedRow(now, file, publicUrl, createdAt)];
          if !insertOk {
            alerts := alerts + [UploadFailed];
          } else {
            alerts := alerts + [Uploaded];
            selectedImage := None;
            imagePreview := None;
          }
        }
      }
    }

    /** `handleImageDelete`: drop the selection and its preview. */
    method DeleteImage()
      requires Valid()
      modifies this
      ensures topicId == old(topicId)
      ensures Valid()
      ensures selectedImage == None && imagePreview == None
      ensures topic == old(topic) && isLoading == old(isLoading) && completed == old(completed)
      ensures selectedAnswer == old(selectedAnswer) && showCorrectAnswer == old(showCorrectAnswer)
      ensures reported == old(reported) && upserts == old(upserts) && uploads == old(uploads)
      ensures drawings == old(drawings) && alerts == old(alerts) && navigations == old(navigations)
    {
      selectedImage := None;
      imagePreview := None;
    }

    /**
     * The "Go Back" button: back to the module list when the topic was not
     * found, to the dashboard from a shown topic.
     */
    method PressGoBack()
      requires Valid() && !isLoading
      modifies this
      ensures topicId == old(topicId)
      ensures Valid()
      ensures topic.None? ==> navigations == old(navigations) + ["/learning"]
      ensures topic.Some? ==> navigations == old(navigations) + ["/dashboard"]
      ensures topic == old(topic) && isLoading == old(isLoading) && completed == old(completed)
      ensures selectedAnswer == old(selectedAnswer) && showCorrectAnswer == old(showCorrectAnswer)
      ensures selectedImage == old(selectedImage) && imagePreview == old(imagePreview)
      ensures reported == old(reported) && upserts == old(upserts) && uploads == old(uploads)
      ensures drawings == old(drawings) && alerts == old(alerts)
    {
      if topic.None? {
        navigations := navigations + ["/learning"];
      } else {
        navigations := navigations + ["/dashboard"];
      }
    }

    /** Previous is disabled on the first topic. */
    predicate PreviousDisabled()
      reads this
    {
      topicId == 1
    }

    /** Next is disabled on the last topic. */
    predicate NextDisabled()
      reads this
    {
      topicId == |topics|
    }

    /**
     * A shown topic has an id in 1..15, so an enabled Previous leads to
     * 1..14 and an enabled Next to 2..15: navigation stays among the topics.
     */
    lemma ShownTopicInRange()
      requires Valid() && topic.Some?
      ensures 1 <= topicId <= |topics|
      ensures !PreviousDisabled() ==> 1 <= topicId - 1 < |topics|
      ensures !NextDisabled() ==> 1 < topicId + 1 <= |topics|
    {
      var i :| Catalogue.FirstWithId(topics, topicId, i) && topic.value == topics[i];
    }

    /** A press on Previous, which is on screen only with a shown topic. */
    method PressPrevious()
      requires Valid() && !isLoading && topic.Some?
      modifies this
      ensures topicId == old(topicId)
      ensures Valid()
      ensures PreviousDisabled() ==> navigations == old(navigations)
      ensures !PreviousDisabled() ==>
        navigations == old(navigations) + [PageUrl(topicId - 1)] && 1 <= topicId - 1 < |topics|
      ensures topic == old(topic) && isLoading == old(isLoading) && completed == old(completed)
      ensures selectedAnswer == old(selectedAnswer) && showCorrectAnswer == old(showCorrectAnswer)
      ensures selectedImage == old(selectedImage) && imagePreview == old(imagePreview)
      ensures reported == old(reported) && upserts == old(upserts) && uploads == old(uploads)
      ensures drawings == old(drawings) && alerts == old(alerts)
    {
      ShownTopicInRange();
      if !PreviousDisabled() {
        navigations := navigations + [PageUrl(topicId - 1)];
      }
    }

    /** A press on Next, which is on screen only with a shown topic. */
    method PressNext()
      requires Valid() && !isLoading && topic.Some?
      modifies this
      ensures topicId == old(topicId)
      ensures Valid()
      ensures NextDisabled() ==> navigations == old(navigations)
      ensures !NextDisabled() ==>
        navigations == old(navigations) + [PageUrl(topicId + 1)] && 1 < topicId + 1 <= |topics|
      ensures topic == old(topic) && isLoading == old(isLoading) && completed == old(completed)
      ensures selectedAnswer == old(selectedAnswer) && showCorrectAnswer == old(showCorrectAnswer)
      ensures selectedImage == old(selectedImage) && imagePreview == old(imagePreview)
      ensures reported == old(reported) && upserts == old(upserts) && uploads == old(uploads)
      ensures drawings == old(drawings) && alerts == old(alerts)
    {
      ShownTopicInRange();
      if !NextDisabled() {
        navigations := navigations + [PageUrl(topicId + 1)];
      }
    }
  }
}
