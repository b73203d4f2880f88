/**
 * The quiz editor page: its form, the draft `saveQuiz` builds from it, the
 * checks it makes before saving, and the minimum counts the remove buttons keep.
 * What the page reads from the DOM is held in a `Form` value.
 */
module CreateForm {
  import opened Basics
  import opened Json
  import JsString
  import Storage

  // ---------------------------------------------------------------------------
  // Form state
  // ---------------------------------------------------------------------------

  /** One answer row: the `value` attribute of its radio or checkbox, its text input, whether it is checked. */
  datatype AnswerItem = AnswerItem(value: nat, text: string, checked: bool)

  /**
   * One question block: its text area and its answer rows. A true/false
   * question has the two radios with values 0 and 1 and no text inputs.
   */
  datatype QuestionItem = QuestionItem(text: string, answers: seq<AnswerItem>)

  /** The form: title, selected type, the question blocks and the three time inputs, as numbers. */
  datatype Form = Form(
    title: string,
    selectedType: string,
    questions: seq<QuestionItem>,
    initialTime: int,
    timeBonus: int,
    timePenalty: int)

  // ---------------------------------------------------------------------------
  // The draft
  // ---------------------------------------------------------------------------

  datatype Question = Question(text: string, answers: seq<string>, correctAnswers: seq<int>)

  datatype TimeChallenge = TimeChallenge(
    enabled: bool, initialTime: int, timeBonus: int, timePenalty: int, repeatWrongQuestions: bool)

  /** `quizData` as `saveQuiz` builds it. */
  datatype Draft = Draft(title: string, typ: string, questions: seq<Question>, timeChallenge: TimeChallenge)

  /** Why `saveQuiz` stops without saving. */
  datatype Invalid =
    | MissingTitle             // the trimmed title is empty
    | MissingType              // no type is selected
    | NoQuestions              // the form has no question block
    | NoChoiceSelected         // a true/false question has no checked radio: reading its value throws
    | NoCorrectAnswer(number: nat)  // question `number` (counted from 1) has no correct answer

  /** `selectedType.replace('-time', '')`: the first `-time` removed. */
  function BaseType(selected: string): string {
    JsString.ReplaceFirst(selected, "-time", "")
  }

  /** `-time` appended to a type without it is its first occurrence: `-time` has no border. */
  lemma TimeSuffixFirst(t: string)
    requires JsString.IndexOf(t, "-time") == -1
    ensures JsString.IndexOf(t + "-time", "-time") == |t|
  {
    var s := t + "-time";
    assert s[|t|..|t| + 5] == "-time";
    assert JsString.OccursAt(s, "-time", |t|);
    forall j | 0 <= j < |t| ensures !JsString.OccursAt(s, "-time", j) {
      if j + 5 <= |t| {
        assert s[j..j + 5] == t[j..j + 5];
        assert !JsString.OccursAt(t, "-time", j);
      } else {
        var d := |t| - j;
        assert s[j..j + 5][d] == s[|t|] == '-';
        assert "-time"[d] != '-';
      }
    }
  }

  /** A timed type `t-time` is saved as `t`, and its time challenge is on. */
  lemma TimedType(t: string)
    requires JsString.IndexOf(t, "-time") == -1
    ensures BaseType(t + "-time") == t
    ensures JsString.EndsWith(t + "-time", "-time")
  {
    TimeSuffixFirst(t);
    var s := t + "-time";
    assert s[..|t|] == t && s[|t| + 5..] == [];
    assert s[|s| - 5..] == "-time";
  }

  /** A type without `-time` is saved as it is, and its time challenge is off. */
  lemma UntimedType(t: string)
    requires JsString.IndexOf(t, "-time") == -1
    ensures BaseType(t) == t
    ensures !JsString.EndsWith(t, "-time")
  {
    JsString.AbsentNotSuffix(t, "-time");
  }

  /** The values of the checked answer rows, in order. */
  function CheckedValues(items: seq<AnswerItem>): (r: seq<int>)
    ensures |r| <= |items|
  {
    if items == [] then []
    else
      var last := items[|items| - 1];
      CheckedValues(items[..|items| - 1]) + if last.checked then [last.value] else []
  }

  /**
   * Exactly the checked rows' values are collected: each collected value is that of a
   * checked row, and each checked row's value is collected.
   */
  lemma {:induction false} CheckedValuesChecked(items: seq<AnswerItem>)
    ensures forall k :: 0 <= k < |CheckedValues(items)| ==>
      exists i :: 0 <= i < |items| && items[i].checked && CheckedValues(items)[k] == items[i].value
    ensures forall i :: 0 <= i < |items| && items[i].checked ==> items[i].value in CheckedValues(items)
  {
    CheckedValuesAtPositions(items);
    CheckedPositionsExact(items);
    ValuesAtCheckedPositions(items, CheckedValues(items), CheckedPositions(items));
  }

  /** Values read at exactly the checked positions are exactly the checked rows' values. */
  lemma ValuesAtCheckedPositions(items: seq<AnswerItem>, r: seq<int>, p: seq<int>)
    requires |r| == |p|
    requires forall k :: 0 <= k < |p| ==> 0 <= p[k] < |items| && items[p[k]].checked && r[k] == items[p[k]].value
    requires forall i :: 0 <= i < |items| && items[i].checked ==> i in p
    ensures forall k :: 0 <= k < |r| ==>
      exists i :: 0 <= i < |items| && items[i].checked && r[k] == items[i].value
    ensures forall i :: 0 <= i < |items| && items[i].checked ==> items[i].value in r
  {
    forall k | 0 <= k < |r|
      ensures exists i :: 0 <= i < |items| && items[i].checked && r[k] == items[i].value
    {
      var i := p[k];
      assert 0 <= i < |items| && items[i].checked && r[k] == items[i].value;
    }
    assert forall k :: 0 <= k < |r| ==>
      exists i :: 0 <= i < |items| && items[i].checked && r[k] == items[i].value;
    forall i | 0 <= i < |items| && items[i].checked
      ensures items[i].value in r
    {
      var k :| 0 <= k < |p| && p[k] == i;
      assert r[k] == items[i].value;
    }
  }

  /** The trimmed texts of the answer rows, in order. */
  function AnswerTexts(items: seq<AnswerItem>): (r: seq<string>)
    ensures |r| == |items|
  {
    if items == [] then []
    else AnswerTexts(items[..|items| - 1]) + [JsString.Trim(items[|items| - 1].text)]
  }

  /** Row by row, the texts are the rows' trimmed texts. */
  lemma {:induction false} AnswerTextsTrimmed(items: seq<AnswerItem>)
    ensures var r := AnswerTexts(items); forall i :: 0 <= i < |items| ==> r[i] == JsString.Trim(items[i].text)
  {
    if items != [] {
      var init := items[..|items| - 1];
      AnswerTextsTrimmed(init);
      assert forall i :: 0 <= i < |init| ==> init[i] == items[i];
    }
  }

  /** The value of the first checked row, the radio `querySelector(':checked')` finds. */
  function FirstChecked(items: seq<AnswerItem>): Option<nat> {
    if items == [] then None
    else if items[0].checked then Some(items[0].value)
    else FirstChecked(items[1..])
  }

  /** No value exactly when no row is checked; otherwise the value of the first checked row. */
  lemma {:induction false} FirstCheckedFirst(items: seq<AnswerItem>)
    ensures var r := FirstChecked(items);
      && (r.None? <==> forall i :: 0 <= i < |items| ==> !items[i].checked)
      && (r.Some? ==> exists i :: 0 <= i < |items| && items[i].checked && items[i].value == r.value &&
                                 forall j :: 0 <= j < i ==> !items[j].checked)
  {
    if items != [] && !items[0].checked {
      FirstCheckedFirst(items[1..]);
      assert forall j :: 1 <= j < |items| ==> items[j] == items[1..][j - 1];
      if FirstChecked(items).Some? {
        var i :| 0 <= i < |items[1..]| && items[1..][i].checked && items[1..][i].value == FirstChecked(items).value &&
                 forall j :: 0 <= j < i ==> !items[1..][j].checked;
        assert items[i + 1] == items[1..][i];
      }
    }
  }

  /** What `collectQuestionData` makes of one question block. */
  function CollectedQuestion(base: string, q: QuestionItem): (r: Result<Question, Invalid>)
    ensures r.Err? ==> r.error == NoChoiceSelected
  {
    var text := JsString.Trim(q.text);
    if base == "true-false" then
      match FirstChecked(q.answers)
      case None => Err(NoChoiceSelected)
      case Some(v) => Ok(Question(text, ["Wahr", "Falsch"], [v]))
    else Ok(Question(text, AnswerTexts(q.answers), CheckedValues(q.answers)))
  }

  /**
   * A block reads as its trimmed text; a true/false block fails exactly when no
   * radio is checked and otherwise holds "Wahr"/"Falsch" and the first checked
   * value; any other block holds its trimmed answer texts and its checked values.
   */
  lemma BlockRead(base: string, q: QuestionItem)
    ensures var r := CollectedQuestion(base, q);
      && (r.Ok? ==> r.value.text == JsString.Trim(q.text))
      && (base == "true-false" ==> (r.Err? <==> forall i :: 0 <= i < |q.answers| ==> !q.answers[i].checked))
      && (base == "true-false" && r.Ok? ==>
           r.value.answers == ["Wahr", "Falsch"] && r.value.correctAnswers == [FirstChecked(q.answers).value])
      && (base != "true-false" ==> r.Ok? && r.value.answers == AnswerTexts(q.answers) &&
                                   r.value.correctAnswers == CheckedValues(q.answers))
  {
    FirstCheckedFirst(q.answers);
  }

  /** `collectQuestionData`: every block in order; the first block that throws stops it. */
  function Collected(base: string, qs: seq<QuestionItem>): (r: Result<seq<Question>, Invalid>)
    ensures r.Ok? ==> |r.value| == |qs|
    ensures r.Err? ==> r.error == NoChoiceSelected
  {
    if qs == [] then Ok([])
    else
      match Collected(base, qs[..|qs| - 1])
      case Err(e) => Err(e)
      case Ok(prev) =>
        match CollectedQuestion(base, qs[|qs| - 1])
        case Err(e) => Err(e)
        case Ok(q) => Ok(prev + [q])
  }

  /** The collection succeeds exactly when every block does, and then holds each block's question in order. */
  lemma CollectedElements(base: string, qs: seq<QuestionItem>)
    ensures Collected(base, qs).Ok? <==> forall i :: 0 <= i < |qs| ==> CollectedQuestion(base, qs[i]).Ok?
    ensures Collected(base, qs).Ok? ==>
      forall i :: 0 <= i < |qs| ==> Collected(base, qs).value[i] == CollectedQuestion(base, qs[i]).value
  {
    CollectedOk(base, qs);
    if Collected(base, qs).Ok? {
      CollectedValues(base, qs);
    }
  }

  lemma {:induction false} CollectedOk(base: string, qs: seq<QuestionItem>)
    ensures Collected(base, qs).Ok? <==> forall i :: 0 <= i < |qs| ==> CollectedQuestion(base, qs[i]).Ok?
  {
    if qs != [] {
      var n := |qs| - 1;
      var init := qs[..n];
      CollectedOk(base, init);
      assert forall i :: 0 <= i < n ==> init[i] == qs[i];
      assert Collected(base, qs).Ok? <==> Collected(base, init).Ok? && CollectedQuestion(base, qs[n]).Ok?;
    }
  }

  lemma {:induction false} CollectedValues(base: string, qs: seq<QuestionItem>)
    requires Collected(base, qs).Ok?
    ensures forall i :: 0 <= i < |qs| ==>
      CollectedQuestion(base, qs[i]).Ok? && Collected(base, qs).value[i] == CollectedQuestion(base, qs[i]).value
  {
    if qs != [] {
      var n := |qs| - 1;
      var init := qs[..n];
      CollectedValues(base, init);
      var prev, last := Collected(base, init).value, CollectedQuestion(base, qs[n]).value;
      assert Collected(base, qs).value == prev + [last];
      assert forall i :: 0 <= i < n ==> init[i] == qs[i];
    }
  }

  /** Collecting one more block that succeeds appends its question. */
  lemma CollectedSnoc(base: string, qs: seq<QuestionItem>, i: nat)
    requires i < |qs| && Collected(base, qs[..i]).Ok? && CollectedQuestion(base, qs[i]).Ok?
    ensures Collected(base, qs[..i + 1]) == Ok(Collected(base, qs[..i]).value + [CollectedQuestion(base, qs[i]).value])
  {
    TakeSnoc(qs, i);
  }

  /** A block that fails makes the whole collection fail. */
  lemma CollectedStops(base: string, qs: seq<QuestionItem>, i: nat)
    requires i < |qs| && CollectedQuestion(base, qs[i]).Err?
    ensures Collected(base, qs) == Err(NoChoiceSelected)
  {
    CollectedElements(base, qs);
  }

  /** The first question without a correct answer. */
  function FirstUnanswered(qs: seq<Question>): (r: Option<nat>)
    ensures r.None? <==> forall i :: 0 <= i < |qs| ==> |qs[i].correctAnswers| > 0
    ensures r.Some? ==> r.value < |qs| && |qs[r.value].correctAnswers| == 0 &&
                        forall j :: 0 <= j < r.value ==> |qs[j].correctAnswers| > 0
  {
    if qs == [] then None
    else if |qs[0].correctAnswers| == 0 then Some(0)
    else
      var r := FirstUnanswered(qs[1..]);
      assert forall j :: 1 <= j < |qs| ==> qs[j] == qs[1..][j - 1];
      if r.None? then None else Some(r.value + 1)
  }

  /** The time challenge settings: the inputs when the type is timed, 60/5/3 when not. */
  function TimeSettings(form: Form): (tc: TimeChallenge)
    ensures tc.enabled == JsString.EndsWith(form.selectedType, "-time")
    ensures tc.repeatWrongQuestions
    ensures !tc.enabled ==> tc.initialTime == 60 && tc.timeBonus == 5 && tc.timePenalty == 3
    ensures tc.enabled ==> tc.initialTime == form.initialTime && tc.timeBonus == form.timeBonus &&
                           tc.timePenalty == form.timePenalty
  {
    var timed := JsString.EndsWith(form.selectedType, "-time");
    TimeChallenge(timed,
                  if timed then form.initialTime else 60,
                  if timed then form.timeBonus else 5,
                  if timed then form.timePenalty else 3,
                  true)
  }

  /** The checks `saveQuiz` makes, in order, and the draft it saves when they pass. */
  function BuildDraft(form: Form): Result<Draft, Invalid> {
    var title := JsString.Trim(form.title);
    if title == [] then Err(MissingTitle)
    else if form.selectedType == [] then Err(MissingType)
    else if form.questions == [] then Err(NoQuestions)
    else
      var base := BaseType(form.selectedType);
      match Collected(base, form.questions)
      case Err(e) => Err(e)
      case Ok(qs) =>
        match FirstUnanswered(qs)
        case Some(i) => Err(NoCorrectAnswer(i + 1))
        case None => Ok(Draft(title, base, qs, TimeSettings(form)))
  }

  /**
   * The order of the checks: the title first, then the type, then the number of
   * questions, then reading the blocks, then the first question without a correct answer.
   */
  lemma DraftRejections(form: Form)
    ensures var r := BuildDraft(form);
      var title := JsString.Trim(form.title);
      var qs := Collected(BaseType(form.selectedType), form.questions);
      && (title == [] ==> r == Err(MissingTitle))
      && (title != [] && form.selectedType == [] ==> r == Err(MissingType))
      && (title != [] && form.selectedType != [] && form.questions == [] ==> r == Err(NoQuestions))
      && (title != [] && form.selectedType != [] && form.questions != [] && qs.Err? ==> r == Err(NoChoiceSelected))
      && (r.Err? && r.error.NoCorrectAnswer? ==> qs.Ok? && FirstUnanswered(qs.value) == Some(r.error.number - 1))
  {
  }

  /**
   * A draft is built exactly when the title, the type and the questions are there,
   * every block reads and every question has a correct answer; it holds the
   * trimmed title, the type without `-time`, the questions read and the time settings.
   */
  lemma DraftAccepted(form: Form)
    ensures var r := BuildDraft(form);
      var base := BaseType(form.selectedType);
      var qs := Collected(base, form.questions);
      && (r.Ok? <==> JsString.Trim(form.title) != [] && form.selectedType != [] && form.questions != [] &&
                     qs.Ok? && forall i :: 0 <= i < |qs.value| ==> |qs.value[i].correctAnswers| > 0)
      && (r.Ok? ==> r.value == Draft(JsString.Trim(form.title), base, qs.value, TimeSettings(form)) &&
                    |r.value.questions| == |form.questions|)
  {
  }

  /** `BuildDraft` once the title, type and question count have passed. */
  lemma BuildDraftCollectFails(form: Form)
    requires JsString.Trim(form.title) != [] && form.selectedType != [] && form.questions != []
    requires Collected(BaseType(form.selectedType), form.questions).Err?
    ensures BuildDraft(form) == Err(Collected(BaseType(form.selectedType), form.questions).error)
  {
  }

  lemma BuildDraftCollected(form: Form, qs: seq<Question>)
    requires JsString.Trim(form.title) != [] && form.selectedType != [] && form.questions != []
    requires Collected(BaseType(form.selectedType), form.questions) == Ok(qs)
    ensures FirstUnanswered(qs).Some? ==> BuildDraft(form) == Err(NoCorrectAnswer(FirstUnanswered(qs).value + 1))
    ensures FirstUnanswered(qs).None? ==>
      BuildDraft(form) == Ok(Draft(JsString.Trim(form.title), BaseType(form.selectedType), qs, TimeSettings(form)))
  {
  }

  // ---------------------------------------------------------------------------
  // The draft as the JSON object handed to the store
  // ---------------------------------------------------------------------------

  function StringsJson(ss: seq<string>): (r: Value)
    ensures WellFormed(r) && r.JArray? && |r.items| == |ss|
  {
    JArray(seq(|ss|, i requires 0 <= i < |ss| => JString(ss[i])))
  }

  function IntsJson(ns: seq<int>): (r: Value)
    ensures WellFormed(r) && r.JArray? && |r.items| == |ns|
  {
    JArray(seq(|ns|, i requires 0 <= i < |ns| => JNumber(ns[i])))
  }

  function QuestionJson(q: Question): (r: Value)
    ensures WellFormed(r)
  {
    var fs := [Field("text", Some(JString(q.text))), Field("answers", Some(StringsJson(q.answers))),
               Field("correctAnswers", Some(IntsJson(q.correctAnswers)))];
    assert WellFormedFields(fs);
    JObject(With([], fs))
  }

  function QuestionsJson(qs: seq<Question>): (r: Value)
    ensures WellFormed(r) && r.JArray? && |r.items| == |qs|
  {
    var items := seq(|qs|, i requires 0 <= i < |qs| => QuestionJson(qs[i]));
    assert WellFormedItems(items);
    JArray(items)
  }

  function TimeChallengeJson(tc: TimeChallenge): (r: Value)
    ensures WellFormed(r)
  {
    JObject(With([], [Field("enabled", Some(JBool(tc.enabled))), Field("initialTime", Some(JNumber(tc.initialTime))),
                      Field("timeBonus", Some(JNumber(tc.timeBonus))), Field("timePenalty", Some(JNumber(tc.timePenalty))),
                      Field("repeatWrongQuestions", Some(JBool(tc.repeatWrongQuestions)))]))
  }

  function DraftFields(d: Draft): (fs: seq<Field>)
    ensures DistinctFieldKeys(fs) && WellFormedFields(fs) && |fs| == 4
  {
    [Field("title", Some(JString(d.title))), Field("type", Some(JString(d.typ))),
     Field("questions", Some(QuestionsJson(d.questions))), Field("timeChallenge", Some(TimeChallengeJson(d.timeChallenge)))]
  }

  /** `quizData`: `{ title, type, questions, timeChallenge }`. */
  function DraftJson(d: Draft): (r: Value)
    ensures WellFormed(r) && r.JObject?
  {
    JObject(With([], DraftFields(d)))
  }

  /** The draft object has the draft's title, type, questions and time challenge. */
  lemma DraftJsonContents(d: Draft)
    ensures var v := DraftJson(d);
      && Prop(v, "title") == Some(JString(d.title))
      && Prop(v, "type") == Some(JString(d.typ))
      && Prop(v, "questions") == Some(QuestionsJson(d.questions))
      && Prop(v, "timeChallenge") == Some(TimeChallengeJson(d.timeChallenge))
  {
    var fs := DraftFields(d);
    assert fs[0].key == "title" && fs[1].key == "type" && fs[2].key == "questions" && fs[3].key == "timeChallenge";
    WithGet([], fs, "title");
    WithGet([], fs, "type");
    WithGet([], fs, "questions");
    WithGet([], fs, "timeChallenge");
  }

  lemma TimeChallengeNotStored()
    ensures "timeChallenge" !in Storage.RecordKeys
  {
  }

  /**
   * The record `createQuiz` stores for a draft has the draft's title, type and
   * questions, and no time challenge: the store copies only those three fields.
   */
  lemma CreatedFromDraft(d: Draft, id: string, now: string)
    ensures var r := Storage.NewRecord(DraftJson(d), id, now);
      && Storage.HasId(r, id)
      && Prop(r, "title") == Some(JString(d.title))
      && Prop(r, "type") == Some(JString(d.typ))
      && Prop(r, "questions") == Some(QuestionsJson(d.questions))
      && Prop(r, "timeChallenge").None?
  {
    DraftJsonContents(d);
    Storage.NewRecordContents(DraftJson(d), id, now);
    TimeChallengeNotStored();
  }

  // ---------------------------------------------------------------------------
  // Answer numbering
  // ---------------------------------------------------------------------------

  /** Every answer row's `value` is its position, as `addAnswer` numbers them. */
  predicate ValuesArePositions(items: seq<AnswerItem>) {
    forall i :: 0 <= i < |items| ==> items[i].value == i
  }

  /** The positions of the checked rows, in order. */
  function CheckedPositions(items: seq<AnswerItem>): (r: seq<int>)
    ensures forall k :: 0 <= k < |r| ==> 0 <= r[k] < |items| && items[r[k]].checked
  {
    if items == [] then []
    else
      var init := CheckedPositions(items[..|items| - 1]);
      var n := |items| - 1;
      assert forall i :: 0 <= i < n ==> items[..n][i] == items[i];
      init + if items[n].checked then [n] else []
  }

  /** Every checked row's position is listed, and the positions are listed in increasing order. */
  lemma {:induction false} CheckedPositionsExact(items: seq<AnswerItem>)
    ensures forall i :: 0 <= i < |items| && items[i].checked ==> i in CheckedPositions(items)
    ensures forall k, l :: 0 <= k < l < |CheckedPositions(items)| ==>
      CheckedPositions(items)[k] < CheckedPositions(items)[l]
  {
    if items != [] {
      var n := |items| - 1;
      var init := items[..n];
      CheckedPositionsExact(init);
      var r, p := CheckedPositions(items), CheckedPositions(init);
      assert r == p + if items[n].checked then [n] else [];
      forall i | 0 <= i < |items| && items[i].checked
        ensures i in CheckedPositions(items)
      {
        if i < n {
          assert init[i] == items[i];
          assert i in p;
        } else {
          assert r[|p|] == n;
        }
      }
      forall k, l | 0 <= k < l < |r|
        ensures CheckedPositions(items)[k] < CheckedPositions(items)[l]
      {
        assert r[k] == p[k];
        if l < |p| {
          assert r[l] == p[l];
        } else {
          assert r[l] == n;
        }
      }
      assert forall k, l :: 0 <= k < l < |CheckedPositions(items)| ==>
        CheckedPositions(items)[k] < CheckedPositions(items)[l];
    }
  }

  /**
   * The collected values are the values of the checked rows taken in row order: one per
   * checked position, the k-th being the value of the row at the k-th checked position.
   */
  lemma {:induction false} CheckedValuesAtPositions(items: seq<AnswerItem>)
    ensures |CheckedValues(items)| == |CheckedPositions(items)|
    ensures forall k :: 0 <= k < |CheckedPositions(items)| ==>
      CheckedValues(items)[k] == items[CheckedPositions(items)[k]].value
  {
    if items != [] {
      var n := |items| - 1;
      var init := items[..n];
      CheckedValuesAtPositions(init);
      var v, p := CheckedValues(items), CheckedPositions(items);
      var vi, pi := CheckedValues(init), CheckedPositions(init);
      assert v == vi + if items[n].checked then [items[n].value] else [];
      assert p == pi + if items[n].checked then [n] else [];
      forall k | 0 <= k < |p|
        ensures CheckedValues(items)[k] == items[CheckedPositions(items)[k]].value
      {
        if k < |pi| {
          assert v[k] == vi[k] && p[k] == pi[k];
          assert init[pi[k]] == items[pi[k]];
        } else {
          assert v[k] == items[n].value && p[k] == n;
        }
      }
      assert forall k :: 0 <= k < |CheckedPositions(items)| ==>
        CheckedValues(items)[k] == items[CheckedPositions(items)[k]].value;
    }
  }

  /** When values are positions, the collected correct answers are the positions of the checked rows. */
  lemma {:induction false} CheckedValuesArePositions(items: seq<AnswerItem>)
    requires ValuesArePositions(items)
    ensures CheckedValues(items) == CheckedPositions(items)
  {
    if items != [] {
      var init := items[..|items| - 1];
      assert ValuesArePositions(init);
      CheckedValuesArePositions(init);
    }
  }

  /** The rows with their values set back to their positions. */
  function Renumbered(items: seq<AnswerItem>): (r: seq<AnswerItem>)
    ensures |r| == |items| && ValuesArePositions(r)
    ensures forall i :: 0 <= i < |items| ==> r[i].text == items[i].text && r[i].checked == items[i].checked
  {
    seq(|items|, i requires 0 <= i < |items| => AnswerItem(i, items[i].text, items[i].checked))
  }

  /** `answerItem.remove()` as written: the other rows keep their `value` attributes. */
  function RemoveAnswerAsWritten(items: seq<AnswerItem>, k: nat): (r: seq<AnswerItem>)
    requires k < |items|
    ensures |r| == |items| - 1
  {
    items[..k] + items[k + 1..]
  }

  /**
   * Three answers, the first removed, the (now) second checked:
   * `collectQuestionData` reports correct answer 2 for a question with two answers.
   */
  lemma RemoveAnswerAsWrittenBreaksIndex()
    ensures var items := [AnswerItem(0, "a", false), AnswerItem(1, "b", false), AnswerItem(2, "c", true)];
      var after := RemoveAnswerAsWritten(items, 0);
      var q := CollectedQuestion("single-choice", QuestionItem("q", after)).value;
      && ValuesArePositions(items)
      && q.correctAnswers == [2] && |q.answers| == 2
  {
    var items := [AnswerItem(0, "a", false), AnswerItem(1, "b", false), AnswerItem(2, "c", true)];
    var after := RemoveAnswerAsWritten(items, 0);
    assert after == [AnswerItem(1, "b", false), AnswerItem(2, "c", true)];
    assert after[..1] == [AnswerItem(1, "b", false)];
    assert after[..1][..0] == [];
  }

  /** With renumbered rows every collected correct answer is a valid position of a checked row. */
  lemma CollectedIndicesValid(base: string, q: QuestionItem)
    requires ValuesArePositions(q.answers) && base != "true-false"
    ensures var c := CollectedQuestion(base, q).value;
      forall k :: 0 <= k < |c.correctAnswers| ==>
        0 <= c.correctAnswers[k] < |c.answers| && q.answers[c.correctAnswers[k]].checked
  {
    CheckedValuesArePositions(q.answers);
    BlockRead(base, q);
  }

  // ---------------------------------------------------------------------------
  // The page
  // ---------------------------------------------------------------------------

  datatype SaveOutcome =
    | Rejected(reason: Invalid)  // nothing written: a warning toast, or for NoChoiceSelected an uncaught TypeError
    | Created(id: string)        // `createQuiz` was called
    | Updated(ok: bool)          // `updateQuiz` was called

  /** The block `addQuestion()` adds: two empty rows, the first checked for a true/false quiz. */
  function BlankQuestion(selectedType: string): QuestionItem {
    var tf := BaseType(selectedType) == "true-false";
    QuestionItem("", [AnswerItem(0, "", tf), AnswerItem(1, "", false)])
  }

  /** All rows of every question are numbered by position. */
  predicate Numbered(form: Form) {
    forall q :: 0 <= q < |form.questions| ==> ValuesArePositions(form.questions[q].answers)
  }

  /** The editor page: the edit-mode state it keeps and the form it shows. */
  class CreatePage {
    var editMode: bool
    var editQuizId: Option<string>
    var form: Form

    predicate Valid()
      reads this
    {
      (editMode <==> editQuizId.Some?) && Numbered(form)
    }

    /**
     * `initializePage`: edit mode when the page has a non-empty `id` parameter; in create
     * mode the first question block is added as `addQuestion()` adds it.
     */
    constructor(quizIdParam: Option<string>, initial: Form)
      requires Numbered(initial)
      ensures Valid()
      ensures editMode <==> quizIdParam.Some? && quizIdParam.value != []
      ensures editMode ==> editQuizId == quizIdParam && form == initial
      ensures !editMode ==> var tf := BaseType(initial.selectedType) == "true-false";
        form == initial.(questions := initial.questions + [QuestionItem("", [AnswerItem(0, "", tf), AnswerItem(1, "", false)])])
    {
      var edit := quizIdParam.Some? && quizIdParam.value != [];
      editMode := edit;
      editQuizId := if edit then quizIdParam else None;
      form := if edit then initial else initial.(questions := initial.questions + [BlankQuestion(initial.selectedType)]);
    }

    /** `addQuestion()` without data: two empty rows; for true/false the first radio is checked. */
    method AddQuestion()
      requires Valid()
      modifies this
      ensures Valid() && editMode == old(editMode) && editQuizId == old(editQuizId)
      ensures |form.questions| == |old(form.questions)| + 1 && form.questions[..|old(form.questions)|] == old(form.questions)
      ensures var tf := BaseType(form.selectedType) == "true-false";
        form.questions[|old(form.questions)|] == QuestionItem("", [AnswerItem(0, "", tf), AnswerItem(1, "", false)])
      ensures form == old(form).(questions := form.questions)
    {
      form := form.(questions := form.questions + [BlankQuestion(form.selectedType)]);
      assert form.questions[..|form.questions| - 1] == old(form.questions);
    }

    /** `addAnswer`: a new row whose `value` is the number of rows before it. */
    method AddAnswer(q: nat, text: string, isCorrect: bool)
      requires Valid() && q < |form.questions|
      modifies this
      ensures Valid() && editMode == old(editMode) && editQuizId == old(editQuizId)
      ensures form == old(form).(questions := old(form.questions)[q := QuestionItem(
        old(form.questions[q].text), old(form.questions[q].answers) + [AnswerItem(|old(form.questions[q].answers)|, text, isCorrect)])])
    {
      var item := form.questions[q];
      var row := AnswerItem(|item.answers|, text, isCorrect);
      form := form.(questions := form.questions[q := QuestionItem(item.text, item.answers + [row])]);
    }

    /**
     * `removeAnswer`: at two rows or fewer nothing changes; otherwise the row
     * goes and the others are renumbered, so values stay positions.
     */
    method RemoveAnswer(q: nat, k: nat)
      requires Valid() && q < |form.questions| && k < |form.questions[q].answers|
      modifies this
      ensures Valid() && editMode == old(editMode) && editQuizId == old(editQuizId)
      ensures |old(form.questions[q].answers)| <= 2 ==> form == old(form)
      ensures |old(form.questions[q].answers)| > 2 ==>
        var items := old(form.questions[q].answers);
        form == old(form).(questions := old(form.questions)[q := QuestionItem(
          old(form.questions[q].text), Renumbered(items[..k] + items[k + 1..]))])
      ensures |form.questions[q].answers| >= 2 || form == old(form)
    {
      var item := form.questions[q];
      if |item.answers| <= 2 {
        return;
      }
      var rest := Renumbered(item.answers[..k] + item.answers[k + 1..]);
      form := form.(questions := form.questions[q := QuestionItem(item.text, rest)]);
    }

    /** `removeQuestion`: at one question or none nothing changes; otherwise the block goes. */
    method RemoveQuestion(q: nat)
      requires Valid() && q < |form.questions|
      modifies this
      ensures Valid() && editMode == old(editMode) && editQuizId == old(editQuizId)
      ensures |old(form.questions)| <= 1 ==> form == old(form)
      ensures |old(form.questions)| > 1 ==>
        form == old(form).(questions := old(form.questions)[..q] + old(form.questions)[q + 1..])
      ensures |form.questions| >= 1 || form == old(form)
    {
      if |form.questions| <= 1 {
        return;
      }
      var qs := form.questions;
      form := form.(questions := qs[..q] + qs[q + 1..]);
      assert forall i :: 0 <= i < |form.questions| ==> form.questions[i] == if i < q then qs[i] else qs[i + 1];
    }

    /** `collectQuestionData`: the blocks of the form, read with the type the form shows. */
    method CollectQuestionData() returns (r: Result<seq<Question>, Invalid>)
      ensures r == Collected(BaseType(form.selectedType), form.questions)
    {
      r := CollectBlocks(BaseType(form.selectedType), form.questions);
    }

    /** The loop of `collectQuestionData` over the question blocks. */
    static method CollectBlocks(base: string, blocks: seq<QuestionItem>) returns (r: Result<seq<Question>, Invalid>)
      ensures r == Collected(base, blocks)
    {
      var questions: seq<Question> := [];
      var i := 0;
      while i < |blocks|
        invariant 0 <= i <= |blocks|
        invariant Collected(base, blocks[..i]) == Ok(questions)
      {
        var q := CollectBlock(base, blocks[i]);
        if q.Err? {
          CollectedStops(base, blocks, i);
          return Err(q.error);
        }
        CollectedSnoc(base, blocks, i);
        questions := questions + [q.value];
        i := i + 1;
      }
      assert blocks[..i] == blocks;
      return Ok(questions);
    }

    /** One question block of `collectQuestionData`: its text and the loops over its rows. */
    static method CollectBlock(base: string, block: QuestionItem) returns (r: Result<Question, Invalid>)
      ensures r == CollectedQuestion(base, block)
    {
      var text := JsString.Trim(block.text);
      if base == "true-false" {
        var selected := FirstChecked(block.answers);
        if selected.None? {
          return Err(NoChoiceSelected);
        }
        return Ok(Question(text, ["Wahr", "Falsch"], [selected.value]));
      }
      var rows := block.answers;
      var answers: seq<string> := [];
      var correct: seq<int> := [];
      var j := 0;
      while j < |rows|
        invariant 0 <= j <= |rows|
        invariant answers == AnswerTexts(rows[..j])
        invariant correct == CheckedValues(rows[..j])
      {
        TakeSnoc(rows, j);
        answers := answers + [JsString.Trim(rows[j].text)];
        if rows[j].checked {
          correct := correct + [rows[j].value];
        }
        j := j + 1;
      }
      assert rows[..j] == rows;
      return Ok(Question(text, answers, correct));
    }

    /** The loop in `saveQuiz` that looks for a question without a correct answer. */
    static method FindUnanswered(qs: seq<Question>) returns (r: Option<nat>)
      ensures r == FirstUnanswered(qs)
    {
      var i := 0;
      while i < |qs|
        invariant 0 <= i <= |qs|
        invariant forall j :: 0 <= j < i ==> |qs[j].correctAnswers| > 0
      {
        if |qs[i].correctAnswers| == 0 {
          return Some(i);
        }
        i := i + 1;
      }
      return None;
    }

    /**
     * `saveQuiz`: the checks in order, then `updateQuiz` in edit mode and
     * `createQuiz` otherwise. A rejected form writes nothing.
     */
    method SaveQuiz(store: Storage.QuizStore, id: string, now: string, writable: bool) returns (r: SaveOutcome)
      requires Valid() && store.Valid()
      modifies store
      ensures store.Valid()
      ensures r.Rejected? <==> BuildDraft(form).Err?
      ensures r.Rejected? ==> r.reason == BuildDraft(form).error && store.storage == old(store.storage)
      ensures r.Created? ==> !editMode && r.id == id
      ensures r.Created? && writable ==>
        store.LoadQuizzes() == old(store.LoadQuizzes()) + [Storage.NewRecord(DraftJson(BuildDraft(form).value), id, now)]
      ensures r.Updated? ==> editMode
      ensures r.Updated? ==>
        var k := Storage.FindIndex(old(store.LoadQuizzes()), editQuizId.value);
        && (k == -1 ==> !r.ok && store.storage == old(store.storage))
        && (k != -1 ==> r.ok == writable)
        && (k != -1 && writable ==>
              store.LoadQuizzes() ==
              old(store.LoadQuizzes())[k := Storage.Revised(old(store.LoadQuizzes())[k], DraftJson(BuildDraft(form).value), now)])
      ensures !writable ==> store.storage == old(store.storage)
    {
      var title := JsString.Trim(form.title);
      if title == [] {
        return Rejected(MissingTitle);
      }
      if form.selectedType == [] {
        return Rejected(MissingType);
      }
      if |form.questions| == 0 {
        return Rejected(NoQuestions);
      }
      var base := BaseType(form.selectedType);
      var collected := CollectQuestionData();
      if collected.Err? {
        BuildDraftCollectFails(form);
        return Rejected(collected.error);
      }
      BuildDraftCollected(form, collected.value);
      var draft := Draft(title, base, collected.value, TimeSettings(form));
      var missing := FindUnanswered(draft.questions);
      if missing.Some? {
        return Rejected(NoCorrectAnswer(missing.value + 1));
      }
      assert BuildDraft(form) == Ok(draft);
      if editMode {
        var ok := store.UpdateQuiz(editQuizId.value, DraftJson(draft), now, writable);
        r := Updated(ok);
      } else {
        var newId := store.CreateQuiz(DraftJson(draft), id, now, writable);
        r := Created(newId);
      }
    }
  }
}
