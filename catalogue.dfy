/**
 * The module catalogue: the constant tables of categories and topics that
 * the pages render, and the accessors over them (src/api/modules.ts).
 * The records keep the fields that carry structure (ids, titles, quiz
 * options and answers, drag-and-drop items, zones and pairings); the prose
 * the pages only display is not part of this model.
 */
module Catalogue {
  import opened Text

  /** One module as listed inside a category. */
  datatype ModuleSummary = ModuleSummary(id: int, title: string)

  datatype Category = Category(id: string, name: string, modules: seq<ModuleSummary>)

  /**
   * A drag-and-drop exercise. `correctPairings` is the pairing object's
   * entries (item, zone) in the order they are written.
   */
  datatype DragDrop = DragDrop(items: seq<string>, dropZones: seq<string>, correctPairings: seq<(string, string)>)

  /** The tagged union of quiz and activity; the `type` tag is the constructor. */
  datatype InteractiveElement =
    | Quiz(options: seq<string>, correctAnswer: Option<string>)
    | Activity(name: string, allowUpload: Option<bool>, dragDropItems: Option<DragDrop>)

  datatype Topic = Topic(id: int, title: string, interactiveElements: seq<InteractiveElement>)

  /** The value of an element's `type` field: it tells the two kinds apart. */
  function TypeTag(e: InteractiveElement): (tag: string)
    ensures tag == "quiz" <==> e.Quiz?
    ensures tag == "activity" <==> e.Activity?
  {
    match e
    case Quiz(_, _) => "quiz"
    case Activity(_, _, _) => "activity"
  }

  /** The pairing object as a lookup table: a key written twice keeps its last value. */
  function PairingMap(ps: seq<(string, string)>): (m: map<string, string>)
    ensures m.Keys == set i | 0 <= i < |ps| :: ps[i].0
  {
    if ps == [] then map[]
    else
      var m := PairingMap(ps[..|ps| - 1]);
      assert forall i :: 0 <= i < |ps| - 1 ==> ps[..|ps| - 1][i] == ps[i];
      m[ps[|ps| - 1].0 := ps[|ps| - 1].1]
  }

  /** `getCategories()`: the category table, as it is. */
  function GetCategories(): (r: seq<Category>)
    ensures r == Categories()
  {
    Categories()
  }

  /** `getTopics()`: the topic table, as it is. */
  function GetTopics(): (r: seq<Topic>)
    ensures r == Topics()
  {
    Topics()
  }

  /** Position `i` holds the first topic of `ts` whose id is `id`. */
  ghost predicate FirstWithId(ts: seq<Topic>, id: int, i: int)
  {
    0 <= i < |ts| && ts[i].id == id && forall j :: 0 <= j < i ==> ts[j].id != id
  }

  /** `ts.find(topic => topic.id === id)`. */
  function FindTopic(ts: seq<Topic>, id: int): (r: Option<Topic>)
    ensures r.None? <==> forall i :: 0 <= i < |ts| ==> ts[i].id != id
    ensures r.Some? ==> exists i :: FirstWithId(ts, id, i) && r.value == ts[i]
  {
    if ts == [] then None
    else if ts[0].id == id then
      assert FirstWithId(ts, id, 0);
      Some(ts[0])
    else
      var r := FindTopic(ts[1..], id);
      assert r.Some? ==> exists i :: FirstWithId(ts, id, i) && r.value == ts[i] by {
        if r.Some? {
          var i :| FirstWithId(ts[1..], id, i) && r.value == ts[1..][i];
          assert FirstWithId(ts, id, i + 1);
        }
      }
      r
  }

  /** `getTopic(id)`. */
  function GetTopic(id: int): (r: Option<Topic>)
  {
    FindTopic(Topics(), id)
  }

  /** There are fifteen topics, which the components divide by. */
  lemma TopicCount()
    ensures |Topics()| == 15
  {
  }

  /** Topic ids are 1, 2, ..., 15 in table order. */
  lemma TopicIdsConsecutive()
    ensures |Topics()| == 15
    ensures forall i :: 0 <= i < |Topics()| ==> Topics()[i].id == i + 1
  {
  }

  /** So `getTopic(k)` is the k-th topic for 1 <= k <= 15 and nothing otherwise. */
  lemma GetTopicById(id: int)
    ensures GetTopic(id) == if 1 <= id <= |Topics()| then Some(Topics()[id - 1]) else None
  {
    TopicIdsConsecutive();
    var r := GetTopic(id);
    if r.Some? {
      var i :| FirstWithId(Topics(), id, i) && r.value == Topics()[i];
    }
  }

  /** Five categories of three modules each, numbered 1..15 in order. */
  lemma CategoriesShape()
    ensures |Categories()| == 5
    ensures forall c :: 0 <= c < 5 ==> |Categories()[c].modules| == 3
    ensures forall c, m :: 0 <= c < 5 && 0 <= m < 3 ==> Categories()[c].modules[m].id == 3 * c + m + 1
  {
  }

  /** No module id is listed twice across the categories. */
  lemma CategoryModulesDistinct()
    ensures forall c1, m1, c2, m2 ::
      0 <= c1 < |Categories()| && 0 <= m1 < |Categories()[c1].modules| &&
      0 <= c2 < |Categories()| && 0 <= m2 < |Categories()[c2].modules| &&
      Categories()[c1].modules[m1].id == Categories()[c2].modules[m2].id
      ==> c1 == c2 && m1 == m2
  {
    CategoriesShape();
  }

  /** Every module a category lists has a topic. */
  lemma CategoryModulesResolvable()
    ensures forall c, m :: 0 <= c < |Categories()| && 0 <= m < |Categories()[c].modules| ==>
      GetTopic(Categories()[c].modules[m].id).Some?
  {
    CategoriesShape();
    TopicCount();
    forall c, m | 0 <= c < |Categories()| && 0 <= m < |Categories()[c].modules|
      ensures GetTopic(Categories()[c].modules[m].id).Some?
    {
      GetTopicById(Categories()[c].modules[m].id);
    }
  }

  /** No string occurs twice in `xs`. */
  predicate Distinct(xs: seq<string>)
  {
    forall i, j :: 0 <= i < j < |xs| ==> xs[i] != xs[j]
  }

  /** A quiz names its correct answer, and that answer is one of its options. */
  predicate QuizWellFormed(e: InteractiveElement)
  {
    e.Quiz? ==> e.correctAnswer.Some? && e.correctAnswer.value in e.options
  }

  /**
   * The checkable shape of a drag-and-drop exercise: distinct items, one
   * entry per item written in item order, and distinct targets that are drop
   * zones, as many as there are zones.
   */
  predicate PairingsWellFormed(d: DragDrop)
  {
    var ps := d.correctPairings;
    && Distinct(d.items)
    && |ps| == |d.items| == |d.dropZones|
    && (forall i :: 0 <= i < |ps| ==> ps[i].0 == d.items[i] && ps[i].1 in d.dropZones)
    && (forall i, j :: 0 <= i < j < |ps| ==> ps[i].1 != ps[j].1)
  }

  /**
   * The pairings are a bijection from the items onto the drop zones: the
   * keys are exactly the items, every value is a zone, no two items share a
   * zone, and every zone is used.
   */
  ghost predicate PairingsBijective(d: DragDrop)
  {
    PairingsFromItemsToZones(d) && PairingsInjective(d) && PairingsOnto(d)
  }

  ghost predicate PairingsFromItemsToZones(d: DragDrop)
  {
    var m := PairingMap(d.correctPairings);
    m.Keys == (set x | x in d.items) && forall k :: k in m ==> m[k] in d.dropZones
  }

  ghost predicate PairingsInjective(d: DragDrop)
  {
    var m := PairingMap(d.correctPairings);
    forall k1, k2 :: k1 in m && k2 in m && k1 != k2 ==> m[k1] != m[k2]
  }

  ghost predicate PairingsOnto(d: DragDrop)
  {
    var m := PairingMap(d.correctPairings);
    forall z :: z in d.dropZones ==> exists k :: k in m && m[k] == z
  }

  /** With distinct keys, every entry survives in the lookup table. */
  lemma {:induction false} PairingMapEntries(ps: seq<(string, string)>)
    requires forall i, j :: 0 <= i < j < |ps| ==> ps[i].0 != ps[j].0
    ensures forall i :: 0 <= i < |ps| ==> ps[i].0 in PairingMap(ps) && PairingMap(ps)[ps[i].0] == ps[i].1
  {
    if ps != [] {
      var init := ps[..|ps| - 1];
      PairingMapEntries(init);
      forall i | 0 <= i < |ps|
        ensures ps[i].0 in PairingMap(ps) && PairingMap(ps)[ps[i].0] == ps[i].1
      {
        if i < |ps| - 1 {
          assert init[i] == ps[i];
        }
      }
    }
  }

  /** The set of a duplicate-free sequence has as many elements as the sequence. */
  lemma {:induction false} DistinctCard(xs: seq<string>)
    requires Distinct(xs)
    ensures |set x | x in xs| == |xs|
  {
    if xs != [] {
      var rest := xs[1..];
      assert Distinct(rest) by {
        forall i, j | 0 <= i < j < |rest| ensures rest[i] != rest[j] {
          assert rest[i] == xs[i + 1] && rest[j] == xs[j + 1];
        }
      }
      DistinctCard(rest);
      assert (set x | x in xs) == (set x | x in rest) + {xs[0]};
      assert xs[0] !in (set x | x in rest) by {
        forall i | 0 <= i < |rest| ensures rest[i] != xs[0] {
          assert rest[i] == xs[i + 1];
        }
      }
    }
  }

  /** A set never has more elements than a sequence that lists all of them. */
  lemma {:induction false} SetOfSeqCard(xs: seq<string>)
    ensures |set x | x in xs| <= |xs|
  {
    if xs != [] {
      SetOfSeqCard(xs[1..]);
      assert (set x | x in xs) == (set x | x in xs[1..]) + {xs[0]};
    }
  }

  lemma {:induction false} SubsetCard(a: set<string>, b: set<string>)
    requires a <= b
    ensures |a| <= |b|
    decreases |a|
  {
    if a != {} {
      var x :| x in a;
      SubsetCard(a - {x}, b - {x});
    }
  }

  /** A subset as large as its superset is the whole superset. */
  lemma SubsetSameCard(a: set<string>, b: set<string>)
    requires a <= b && |a| == |b|
    ensures a == b
  {
    if a != b {
      var z :| z in b && z !in a;
      SubsetCard(a, b - {z});
    }
  }

  /** In a well-formed exercise the lookup table gives every entry's zone for its item. */
  lemma PairingLookup(d: DragDrop)
    requires PairingsWellFormed(d)
    ensures forall i :: 0 <= i < |d.correctPairings| ==>
      d.correctPairings[i].0 in PairingMap(d.correctPairings) &&
      PairingMap(d.correctPairings)[d.correctPairings[i].0] == d.correctPairings[i].1
  {
    var ps := d.correctPairings;
    forall i, j | 0 <= i < j < |ps| ensures ps[i].0 != ps[j].0 {
      assert ps[i].0 == d.items[i] && ps[j].0 == d.items[j];
    }
    PairingMapEntries(ps);
  }

  /** Pigeonhole: distinct targets, all of them zones and as many as the zones, reach every zone. */
  lemma PairingTargetsOnto(d: DragDrop)
    requires PairingsWellFormed(d)
    ensures forall z :: z in d.dropZones ==> exists i :: 0 <= i < |d.correctPairings| && d.correctPairings[i].1 == z
  {
    var ps := d.correctPairings;
    var targets := seq(|ps|, i requires 0 <= i < |ps| => ps[i].1);
    var image := set t | t in targets;
    var zones := set z | z in d.dropZones;
    assert Distinct(targets);
    DistinctCard(targets);
    SetOfSeqCard(d.dropZones);
    assert image <= zones;
    SubsetCard(image, zones);
    SubsetSameCard(image, zones);
    forall z | z in d.dropZones ensures exists i :: 0 <= i < |ps| && ps[i].1 == z {
      assert z in image;
      var i :| 0 <= i < |targets| && targets[i] == z;
      assert ps[i].1 == z;
    }
  }

  lemma PairingKeysAreItems(d: DragDrop)
    requires PairingsWellFormed(d)
    ensures PairingsFromItemsToZones(d)
  {
    var ps := d.correctPairings;
    var m := PairingMap(ps);
    PairingLookup(d);
    forall x | x in d.items ensures x in m.Keys {
      var i :| 0 <= i < |d.items| && d.items[i] == x;
      assert ps[i].0 == x;
    }
    forall k | k in m ensures m[k] in d.dropZones {
      var i :| 0 <= i < |ps| && ps[i].0 == k;
    }
  }

  lemma PairingMapInjective(d: DragDrop)
    requires PairingsWellFormed(d)
    ensures PairingsInjective(d)
  {
    var ps := d.correctPairings;
    var m := PairingMap(ps);
    PairingLookup(d);
    forall k1, k2 | k1 in m && k2 in m && k1 != k2 ensures m[k1] != m[k2] {
      var i :| 0 <= i < |ps| && ps[i].0 == k1;
      var j :| 0 <= j < |ps| && ps[j].0 == k2;
      assert i != j;
    }
  }

  lemma PairingMapOnto(d: DragDrop)
    requires PairingsWellFormed(d)
    ensures PairingsOnto(d)
  {
    var ps := d.correctPairings;
    var m := PairingMap(ps);
    PairingLookup(d);
    PairingTargetsOnto(d);
    forall z | z in d.dropZones ensures exists k :: k in m && m[k] == z {
      var i :| 0 <= i < |ps| && ps[i].1 == z;
      assert ps[i].0 in m && m[ps[i].0] == z;
    }
  }

  /** A well-formed exercise pairs its items one to one onto its zones. */
  lemma PairingsWellFormedBijective(d: DragDrop)
    requires PairingsWellFormed(d)
    ensures PairingsBijective(d)
  {
    PairingKeysAreItems(d);
    PairingMapInjective(d);
    PairingMapOnto(d);
  }

  predicate ElementWellFormed(e: InteractiveElement)
  {
    && QuizWellFormed(e)
    && (e.Activity? && e.dragDropItems.Some? ==> PairingsWellFormed(e.dragDropItems.value))
  }

  /** A topic opens with its quiz, and every element is well formed. */
  predicate TopicWellFormed(t: Topic)
  {
    && |t.interactiveElements| >= 1 && t.interactiveElements[0].Quiz?
    && forall i :: 0 <= i < |t.interactiveElements| ==> ElementWellFormed(t.interactiveElements[i])
  }

  // Each topic is checked on its own, which keeps every proof obligation small.
  lemma Topic1WellFormed() ensures TopicWellFormed(Topic1()) {}
  lemma Topic2WellFormed() ensures TopicWellFormed(Topic2()) {}
  lemma Topic3WellFormed() ensures TopicWellFormed(Topic3()) {}
  lemma Topic4WellFormed() ensures TopicWellFormed(Topic4()) {}
  lemma Topic5WellFormed() ensures TopicWellFormed(Topic5()) {}
  lemma Topic6WellFormed() ensures TopicWellFormed(Topic6()) {}
  lemma Topic7WellFormed() ensures TopicWellFormed(Topic7()) {}
  lemma Topic8WellFormed() ensures TopicWellFormed(Topic8()) {}
  lemma Topic9WellFormed() ensures TopicWellFormed(Topic9()) {}
  lemma Topic10WellFormed() ensures TopicWellFormed(Topic10()) {}
  lemma Topic11WellFormed() ensures TopicWellFormed(Topic11()) {}
  lemma Topic12WellFormed() ensures TopicWellFormed(Topic12()) {}
  lemma Topic13WellFormed() ensures TopicWellFormed(Topic13()) {}
  lemma Topic14WellFormed() ensures TopicWellFormed(Topic14()) {}
  lemma Topic15WellFormed() ensures TopicWellFormed(Topic15()) {}

  /** Every topic of the table is well formed. */
  lemma AllTopicsWellFormed()
    ensures forall t :: t in Topics() ==> TopicWellFormed(t)
  {
    Topic1WellFormed();
    Topic2WellFormed();
    Topic3WellFormed();
    Topic4WellFormed();
    Topic5WellFormed();
    Topic6WellFormed();
    Topic7WellFormed();
    Topic8WellFormed();
    Topic9WellFormed();
    Topic10WellFormed();
    Topic11WellFormed();
    Topic12WellFormed();
    Topic13WellFormed();
    Topic14WellFormed();
    Topic15WellFormed();
  }

  /** In a well-formed topic, every drag-and-drop exercise is a bijection. */
  lemma TopicPairingsBijective(t: Topic)
    requires TopicWellFormed(t)
    ensures forall e :: e in t.interactiveElements && e.Activity? && e.dragDropItems.Some? ==>
      PairingsBijective(e.dragDropItems.value)
  {
    forall e | e in t.interactiveElements && e.Activity? && e.dragDropItems.Some?
      ensures PairingsBijective(e.dragDropItems.value)
    {
      PairingsWellFormedBijective(e.dragDropItems.value);
    }
  }

  /** Hence every drag-and-drop exercise of the catalogue pairs its items one to one onto its zones. */
  lemma AllPairingsBijective()
    ensures forall t, e :: t in Topics() && e in t.interactiveElements && e.Activity? && e.dragDropItems.Some? ==>
      PairingsBijective(e.dragDropItems.value)
  {
    AllTopicsWellFormed();
    forall t | t in Topics()
      ensures forall e :: e in t.interactiveElements && e.Activity? && e.dragDropItems.Some? ==>
        PairingsBijective(e.dragDropItems.value)
    {
      TopicPairingsBijective(t);
    }
  }

  /** Every quiz of the catalogue has its correct answer among its options. */
  lemma AllQuizAnswersAmongOptions()
    ensures forall t, e :: t in Topics() && e in t.interactiveElements && e.Quiz? ==>
      e.correctAnswer.Some? && e.correctAnswer.value in e.options
  {
    AllTopicsWellFormed();
  }

  // ---- The tables ----

  /** The category table (src/api/modules.ts:52-103). */
  function Categories(): seq<Category> {
    [
      Category("introduction", "Introduction", [
          ModuleSummary(1, "Introduction to Children's Rights"),
          ModuleSummary(2, "Protection of Children"),
          ModuleSummary(3, "Children's Health")]),
      Category("education", "Education", [
          ModuleSummary(4, "Child Development"),
          ModuleSummary(5, "Child Participation"),
          ModuleSummary(6, "Quality Education")]),
      Category("child-labor", "Child Labor", [
          ModuleSummary(7, "Understanding Child Labor"),
          ModuleSummary(8, "Effects of Child Labor"),
          ModuleSummary(9, "Preventing Child Labor")]),
      Category("health", "Health and Wellbeing", [
          ModuleSummary(10, "Physical Health"),
          ModuleSummary(11, "Mental Health"),
          ModuleSummary(12, "Healthcare Access")]),
      Category("protection", "Child Protection", [
          ModuleSummary(13, "Safety from Harm"),
          ModuleSummary(14, "Online Safety"),
          ModuleSummary(15, "Emotional Security")])
    ]
  }

  /** The topic table (src/api/modules.ts:106-827). */
  function Topics(): seq<Topic> {
    [Topic1(), Topic2(), Topic3(), Topic4(), Topic5(), Topic6(), Topic7(), Topic8(), Topic9(), Topic10(), Topic11(), Topic12(), Topic13(), Topic14(), Topic15()]
  }

  /** Topic 1 (src/api/modules.ts:107-148). */
  function Topic1(): Topic {
    Topic(1, "Introduction to Children's Rights", [
      Quiz(
        ["Education", "Work", "Drive", "Vote"],
        Some("Education")),
      Activity(
        "Match Rights Categories",
        None,
        Some(DragDrop(
          ["Education", "Healthcare", "Play", "Protection"],
          ["Basic Rights", "Social Rights", "Development Rights", "Safety Rights"],
          [
            ("Education", "Development Rights"),
            ("Healthcare", "Basic Rights"),
            ("Play", "Social Rights"),
            ("Protection", "Safety Rights")])))])
  }

  /** Topic 2 (src/api/modules.ts:149-175). */
  function Topic2(): Topic {
    Topic(2, "The Right to Education", [
      Quiz(
        ["Free primary education", "Paid schooling", "Optional attendance", "Limited access"],
        Some("Free primary education"))])
  }

  /** Topic 3 (src/api/modules.ts:176-202). */
  function Topic3(): Topic {
    Topic(3, "Protection from Child Labor", [
      Quiz(
        ["It provides income", "It deprives childhood", "It teaches skills", "It saves money"],
        Some("It deprives childhood"))])
  }

  /** Topic 4 (src/api/modules.ts:203-254). */
  function Topic4(): Topic {
    Topic(4, "Child Development", [
      Quiz(
        ["Play", "Study", "Both", "Neither"],
        Some("Both")),
      Activity(
        "Growth Timeline",
        None,
        Some(DragDrop(
          ["Baby", "Toddler", "Child", "Teen"],
          ["0-1 years", "1-3 years", "3-12 years", "13-18 years"],
          [
            ("Baby", "0-1 years"),
            ("Toddler", "1-3 years"),
            ("Child", "3-12 years"),
            ("Teen", "13-18 years")])))])
  }

  /** Topic 5 (src/api/modules.ts:255-306). */
  function Topic5(): Topic {
    Topic(5, "Child Participation", [
      Quiz(
        ["Share ideas", "Join activities", "Both", "None"],
        Some("Both")),
      Activity(
        "Participation Project",
        None,
        Some(DragDrop(
          ["Environmental", "Social", "Educational", "Health"],
          ["Clean-up", "Volunteering", "Tutoring", "Awareness"],
          [
            ("Environmental", "Clean-up"),
            ("Social", "Volunteering"),
            ("Educational", "Tutoring"),
            ("Health", "Awareness")])))])
  }

  /** Topic 6 (src/api/modules.ts:307-358). */
  function Topic6(): Topic {
    Topic(6, "Quality Education", [
      Quiz(
        ["Expensive facilities", "Qualified teachers", "Lots of homework", "Long school hours"],
        Some("Qualified teachers")),
      Activity(
        "Educational Resources",
        None,
        Some(DragDrop(
          ["Books", "Technology", "Field trips", "Group projects"],
          ["Knowledge", "Skills", "Experience", "Collaboration"],
          [
            ("Books", "Knowledge"),
            ("Technology", "Skills"),
            ("Field trips", "Experience"),
            ("Group projects", "Collaboration")])))])
  }

  /** Topic 7 (src/api/modules.ts:359-410). */
  function Topic7(): Topic {
    Topic(7, "Understanding Child Labor", [
      Quiz(
        ["Helping with family chores", "Working in hazardous factories", "Doing homework", "School activities"],
        Some("Working in hazardous factories")),
      Activity(
        "Causes and Effects",
        None,
        Some(DragDrop(
          ["Poverty", "Lack of education", "Poor enforcement", "Social acceptance"],
          ["Economic necessity", "Limited opportunities", "Exploitation", "Normalization"],
          [
            ("Poverty", "Economic necessity"),
            ("Lack of education", "Limited opportunities"),
            ("Poor enforcement", "Exploitation"),
            ("Social acceptance", "Normalization")])))])
  }

  /** Topic 8 (src/api/modules.ts:411-462). */
  function Topic8(): Topic {
    Topic(8, "Effects of Child Labor", [
      Quiz(
        ["Better job skills", "Higher income", "Limited education", "More independence"],
        Some("Limited education")),
      Activity(
        "Impact Areas",
        None,
        Some(DragDrop(
          ["Malnutrition", "Missing school", "Safety hazards", "Social isolation"],
          ["Health", "Education", "Safety", "Development"],
          [
            ("Malnutrition", "Health"),
            ("Missing school", "Education"),
            ("Safety hazards", "Safety"),
            ("Social isolation", "Development")])))])
  }

  /** Topic 9 (src/api/modules.ts:463-514). */
  function Topic9(): Topic {
    Topic(9, "Preventing Child Labor", [
      Quiz(
        ["Punishing children", "Ignoring the problem", "Comprehensive approach", "Closing businesses"],
        Some("Comprehensive approach")),
      Activity(
        "Prevention Strategies",
        None,
        Some(DragDrop(
          ["School programs", "Family support", "Law enforcement", "Business policies"],
          ["Education sector", "Community", "Government", "Private sector"],
          [
            ("School programs", "Education sector"),
            ("Family support", "Community"),
            ("Law enforcement", "Government"),
            ("Business policies", "Private sector")])))])
  }

  /** Topic 10 (src/api/modules.ts:515-566). */
  function Topic10(): Topic {
    Topic(10, "Physical Health", [
      Quiz(
        ["Only for professional athletes", "Just for weight control", "Multiple health benefits", "It's not important"],
        Some("Multiple health benefits")),
      Activity(
        "Healthy Choices",
        None,
        Some(DragDrop(
          ["Fruits and vegetables", "Regular exercise", "Adequate sleep", "Regular check-ups"],
          ["Vitamins and minerals", "Strong muscles", "Rest and recovery", "Early detection"],
          [
            ("Fruits and vegetables", "Vitamins and minerals"),
            ("Regular exercise", "Strong muscles"),
            ("Adequate sleep", "Rest and recovery"),
            ("Regular check-ups", "Early detection")])))])
  }

  /** Topic 11 (src/api/modules.ts:567-618). */
  function Topic11(): Topic {
    Topic(11, "Mental Health", [
      Quiz(
        ["Ignoring emotions", "Consistent support", "Constant supervision", "Avoiding all stress"],
        Some("Consistent support")),
      Activity(
        "Emotional Wellness",
        None,
        Some(DragDrop(
          ["Self-awareness", "Communication", "Stress management", "Positive thinking"],
          ["Understanding feelings", "Expressing needs", "Handling challenges", "Building resilience"],
          [
            ("Self-awareness", "Understanding feelings"),
            ("Communication", "Expressing needs"),
            ("Stress management", "Handling challenges"),
            ("Positive thinking", "Building resilience")])))])
  }

  /** Topic 12 (src/api/modules.ts:619-670). */
  function Topic12(): Topic {
    Topic(12, "Healthcare Access", [
      Quiz(
        ["Only emergency services", "Only for certain groups", "Universal coverage", "Only expensive options"],
        Some("Universal coverage")),
      Activity(
        "Healthcare Components",
        None,
        Some(DragDrop(
          ["Vaccinations", "Regular check-ups", "Health education", "Specialist care"],
          ["Disease prevention", "Monitoring growth", "Building knowledge", "Treating conditions"],
          [
            ("Vaccinations", "Disease prevention"),
            ("Regular check-ups", "Monitoring growth"),
            ("Health education", "Building knowledge"),
            ("Specialist care", "Treating conditions")])))])
  }

  /** Topic 13 (src/api/modules.ts:671-722). */
  function Topic13(): Topic {
    Topic(13, "Safety from Harm", [
      Quiz(
        ["Constant fear", "Awareness and education", "Complete isolation", "No physical activity"],
        Some("Awareness and education")),
      Activity(
        "Safety Responsibilities",
        None,
        Some(DragDrop(
          ["Supervision", "Safety rules", "Reporting systems", "Safe facilities"],
          ["Parents", "Educators", "Community", "Institutions"],
          [
            ("Supervision", "Parents"),
            ("Safety rules", "Educators"),
            ("Reporting systems", "Community"),
            ("Safe facilities", "Institutions")])))])
  }

  /** Topic 14 (src/api/modules.ts:723-774). */
  function Topic14(): Topic {
    Topic(14, "Online Safety", [
      Quiz(
        ["Share personal information", "Meet them in person", "Tell a trusted adult", "Keep it secret"],
        Some("Tell a trusted adult")),
      Activity(
        "Online Safety Strategies",
        None,
        Some(DragDrop(
          ["Personal information", "Cyberbullying", "Screen time", "Unknown links"],
          ["Protect privacy", "Report and block", "Set limits", "Avoid clicking"],
          [
            ("Personal information", "Protect privacy"),
            ("Cyberbullying", "Report and block"),
            ("Screen time", "Set limits"),
            ("Unknown links", "Avoid clicking")])))])
  }

  /** Topic 15 (src/api/modules.ts:775-826). */
  function Topic15(): Topic {
    Topic(15, "Emotional Security", [
      Quiz(
        ["Unpredictable responses", "Consistent care", "Avoiding all emotions", "Constant praise"],
        Some("Consistent care")),
      Activity(
        "Emotional Environment",
        None,
        Some(DragDrop(
          ["Responsive adults", "Expressing feelings", "Setting boundaries", "Handling failure"],
          ["Trust development", "Emotional intelligence", "Sense of safety", "Building resilience"],
          [
            ("Responsive adults", "Trust development"),
            ("Expressing feelings", "Emotional intelligence"),
            ("Setting boundaries", "Sense of safety"),
            ("Handling failure", "Building resilience")])))])
  }
}
