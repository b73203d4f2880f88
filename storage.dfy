/**
 * The quiz store: one JSON array of quiz records kept as text under a single
 * key of the browser's key-value storage, and the operations that load it,
 * change it and write it back, plus export to and import from text.
 */
module Storage {
  import opened Basics
  import opened Json
  import JsonParse
  import Codec

  /** The one storage key the collection lives under. */
  const StorageKey: string := "quizApp_quizzes"

  /** A quiz record: a JSON object. */
  predicate IsRecord(q: Value) {
    q.JObject? && WellFormed(q)
  }

  predicate IsRecords(qs: seq<Value>) {
    forall i :: 0 <= i < |qs| ==> IsRecord(qs[i])
  }

  lemma RecordsAreItems(qs: seq<Value>)
    requires IsRecords(qs)
    ensures WellFormed(JArray(qs))
  {
    assert forall i :: 0 <= i < |qs| ==> WellFormed(qs[i]);
  }

  /** The text stored under the key, if any. */
  function Document(storage: map<string, string>): Option<string> {
    if StorageKey in storage then Some(storage[StorageKey]) else None
  }

  /** What `loadQuizzes` makes of the stored text: `[]` when there is none, it is empty or it does not parse. */
  function Load(doc: Option<string>): (r: Value)
    ensures WellFormed(r)
    ensures doc.None? || doc == Some([]) ==> r == JArray([])
    ensures doc.Some? && JsonParse.Parse(doc.value).None? ==> r == JArray([])
  {
    if doc.None? || doc.value == [] then JArray([])
    else match JsonParse.Parse(doc.value)
      case None => JArray([])
      case Some(v) => v
  }

  /** `saveQuizzes` followed by `loadQuizzes` gives back the records saved. */
  lemma LoadSaved(qs: seq<Value>)
    requires IsRecords(qs)
    ensures Load(Some(Stringify(JArray(qs)))) == JArray(qs)
  {
    RecordsAreItems(qs);
    JsonParse.StringifyBounds(JArray(qs));
    JsonParse.RoundTrip(JArray(qs));
  }

  /**
   * Storage this code can work on: the stored collection, as loaded, is an
   * array of records. Every write below keeps it so.
   */
  predicate ValidStorage(storage: map<string, string>) {
    var v := Load(Document(storage));
    v.JArray? && IsRecords(v.items)
  }

  // ---------------------------------------------------------------------------
  // Pure parts of the collection operations
  // ---------------------------------------------------------------------------

  /** `quiz.id === quizId`. */
  predicate HasId(q: Value, id: string) {
    Prop(q, "id") == Some(JString(id))
  }

  /** `quizzes.findIndex(quiz => quiz.id === quizId)`. */
  function FindIndex(qs: seq<Value>, id: string): (k: int)
    ensures -1 <= k < |qs|
    ensures k >= 0 ==> HasId(qs[k], id) && forall j :: 0 <= j < k ==> !HasId(qs[j], id)
    ensures k == -1 <==> forall j :: 0 <= j < |qs| ==> !HasId(qs[j], id)
  {
    if qs == [] then -1
    else if HasId(qs[0], id) then 0
    else
      var k := FindIndex(qs[1..], id);
      assert forall j :: 1 <= j < |qs| ==> qs[j] == qs[1..][j - 1];
      if k == -1 then -1 else k + 1
  }

  /** The fields a stored record has. */
  const RecordKeys: set<string> := {"id", "title", "type", "questions", "createdAt", "updatedAt"}

  /** `{ id, title, type, questions, createdAt, updatedAt }` with the given values, in that order. */
  function RecordFields(id: Option<Value>, title: Option<Value>, typ: Option<Value>, questions: Option<Value>, now: string): (fs: seq<Field>)
    ensures DistinctFieldKeys(fs) && |fs| == 6
  {
    [Field("id", id), Field("title", title), Field("type", typ), Field("questions", questions),
     Field("createdAt", Some(JString(now))), Field("updatedAt", Some(JString(now)))]
  }

  /** What a record built from `RecordFields` holds under each of its keys. */
  lemma RecordFieldsGet(id: Option<Value>, title: Option<Value>, typ: Option<Value>, questions: Option<Value>, now: string)
    ensures var r := With([], RecordFields(id, title, typ, questions, now));
      && Get(r, "id") == id && Get(r, "title") == title && Get(r, "type") == typ && Get(r, "questions") == questions
      && Get(r, "createdAt") == Some(JString(now)) && Get(r, "updatedAt") == Some(JString(now))
  {
    var fs := RecordFields(id, title, typ, questions, now);
    WithGetAt([], fs, 0);
    WithGetAt([], fs, 1);
    WithGetAt([], fs, 2);
    WithGetAt([], fs, 3);
    WithGetAt([], fs, 4);
    WithGetAt([], fs, 5);
  }

  /** A record built from `RecordFields` holds nothing under any other key. */
  lemma RecordFieldsOnly(id: Option<Value>, title: Option<Value>, typ: Option<Value>, questions: Option<Value>, now: string, k: string)
    requires k !in RecordKeys
    ensures Get(With([], RecordFields(id, title, typ, questions, now)), k).None?
  {
    var fs := RecordFields(id, title, typ, questions, now);
    forall i | 0 <= i < |fs| ensures fs[i].key != k {
      assert fs[i].key in RecordKeys by {
        if i == 0 {} else if i == 1 {} else if i == 2 {} else if i == 3 {} else if i == 4 {} else {}
      }
    }
    WithGet([], fs, k);
  }

  /**
   * The record `createQuiz` appends; a field whose draft value is `undefined` is not written.
   * Reading `title` of a null draft throws, so the draft is not null.
   */
  function NewRecord(data: Value, id: string, now: string): (r: Value)
    requires WellFormed(data) && data != JNull
    ensures IsRecord(r)
  {
    PropWellFormed(data, "title");
    PropWellFormed(data, "type");
    PropWellFormed(data, "questions");
    var fs := RecordFields(Some(JString(id)), Prop(data, "title"), Prop(data, "type"), Prop(data, "questions"), now);
    assert WellFormedFields(fs);
    JObject(With([], fs))
  }

  /**
   * The new record has the given id, the draft's title, type and questions,
   * one timestamp for `createdAt` and `updatedAt`, and no other field.
   */
  lemma NewRecordContents(data: Value, id: string, now: string)
    requires WellFormed(data) && data != JNull
    ensures var r := NewRecord(data, id, now);
      && HasId(r, id)
      && Prop(r, "title") == Prop(data, "title")
      && Prop(r, "type") == Prop(data, "type")
      && Prop(r, "questions") == Prop(data, "questions")
      && Prop(r, "createdAt") == Some(JString(now)) && Prop(r, "updatedAt") == Prop(r, "createdAt")
      && forall k :: k !in RecordKeys ==> Prop(r, k).None?
  {
    RecordFieldsGet(Some(JString(id)), Prop(data, "title"), Prop(data, "type"), Prop(data, "questions"), now);
    forall k | k !in RecordKeys ensures Prop(NewRecord(data, id, now), k).None? {
      RecordFieldsOnly(Some(JString(id)), Prop(data, "title"), Prop(data, "type"), Prop(data, "questions"), now, k);
    }
  }

  /** With an id no stored record has, the appended record is the one the id finds. */
  lemma FreshIdFindsNew(qs: seq<Value>, data: Value, id: string, now: string)
    requires WellFormed(data) && data != JNull && FindIndex(qs, id) == -1
    ensures FindIndex(qs + [NewRecord(data, id, now)], id) == |qs|
  {
    NewRecordContents(data, id, now);
    FindAppended(qs, NewRecord(data, id, now), id);
  }

  lemma FindAppended(qs: seq<Value>, r: Value, id: string)
    requires FindIndex(qs, id) == -1 && HasId(r, id)
    ensures FindIndex(qs + [r], id) == |qs|
  {
    var all := qs + [r];
    assert all[|qs|] == r;
    assert forall j :: 0 <= j < |qs| ==> all[j] == qs[j] && !HasId(all[j], id);
  }

  /** The fields `updateQuiz` writes over the old record. */
  const RevisedKeys: set<string> := {"title", "type", "questions", "updatedAt"}

  /** `title, type, questions, updatedAt` with the draft's values and the new time. */
  function RevisedFields(data: Value, now: string): (fs: seq<Field>)
    ensures DistinctFieldKeys(fs) && |fs| == 4
  {
    [Field("title", Prop(data, "title")), Field("type", Prop(data, "type")),
     Field("questions", Prop(data, "questions")), Field("updatedAt", Some(JString(now)))]
  }

  /**
   * `{...quiz, title, type, questions, updatedAt}`: the record `updateQuiz` writes.
   * Reading `title` of a null draft throws, so the draft is not null.
   */
  function Revised(rec: Value, data: Value, now: string): (r: Value)
    requires IsRecord(rec) && WellFormed(data) && data != JNull
    ensures IsRecord(r)
  {
    PropWellFormed(data, "title");
    PropWellFormed(data, "type");
    PropWellFormed(data, "questions");
    var fs := RevisedFields(data, now);
    assert WellFormedFields(fs);
    JObject(With(rec.members, fs))
  }

  /** A field `updateQuiz` does not write keeps its value. */
  lemma RevisedKeeps(rec: Value, data: Value, now: string, k: string)
    requires IsRecord(rec) && k !in RevisedKeys
    ensures Get(With(rec.members, RevisedFields(data, now)), k) == Get(rec.members, k)
  {
    var fs := RevisedFields(data, now);
    forall i | 0 <= i < |fs| ensures fs[i].key != k {
      assert fs[i].key in RevisedKeys by {
        if i == 0 {} else if i == 1 {} else if i == 2 {} else {}
      }
    }
    WithGet(rec.members, fs, k);
  }

  lemma NotRevisedKeys()
    ensures "id" !in RevisedKeys && "createdAt" !in RevisedKeys
  {
  }

  /**
   * An updated record has the draft's title, type and questions and the new
   * `updatedAt`; every other field, `id` and `createdAt` among them, keeps its value.
   */
  lemma RevisedContents(rec: Value, data: Value, now: string)
    requires IsRecord(rec) && WellFormed(data) && data != JNull
    ensures var r := Revised(rec, data, now);
      && Prop(r, "title") == Prop(data, "title")
      && Prop(r, "type") == Prop(data, "type")
      && Prop(r, "questions") == Prop(data, "questions")
      && Prop(r, "updatedAt") == Some(JString(now))
      && Prop(r, "id") == Prop(rec, "id") && Prop(r, "createdAt") == Prop(rec, "createdAt")
      && forall k :: k !in RevisedKeys ==> Prop(r, k) == Prop(rec, k)
  {
    var fs := RevisedFields(data, now);
    assert Revised(rec, data, now) == JObject(With(rec.members, fs));
    assert fs[0].key == "title" && fs[1].key == "type" && fs[2].key == "questions" && fs[3].key == "updatedAt";
    WithGet(rec.members, fs, "title");
    WithGet(rec.members, fs, "type");
    WithGet(rec.members, fs, "questions");
    WithGet(rec.members, fs, "updatedAt");
    forall k | k !in RevisedKeys ensures Get(With(rec.members, fs), k) == Get(rec.members, k) {
      RevisedKeeps(rec, data, now, k);
    }
    NotRevisedKeys();
    RevisedKeeps(rec, data, now, "id");
    RevisedKeeps(rec, data, now, "createdAt");
  }

  /** `quizzes.filter(quiz => quiz.id !== quizId)`. */
  function RemoveId(qs: seq<Value>, id: string): (r: seq<Value>)
    ensures |r| <= |qs|
    ensures forall i :: 0 <= i < |r| ==> !HasId(r[i], id)
    ensures IsRecords(qs) ==> IsRecords(r)
  {
    if qs == [] then []
    else if HasId(qs[0], id) then RemoveId(qs[1..], id)
    else [qs[0]] + RemoveId(qs[1..], id)
  }

  /** The filter keeps the order: filtering a concatenation filters each part. */
  lemma {:induction false} RemoveIdConcat(a: seq<Value>, b: seq<Value>, id: string)
    ensures RemoveId(a + b, id) == RemoveId(a, id) + RemoveId(b, id)
  {
    if a == [] {
      assert a + b == b;
    } else {
      var h, t := a[0], a[1..];
      ConsSplit(a, b);
      RemoveIdCons(h, t + b, id);
      RemoveIdCons(h, t, id);
      RemoveIdConcat(t, b, id);
      AssocSeq(if HasId(h, id) then [] else [h], RemoveId(t, id), RemoveId(b, id));
    }
  }

  /** One step of the filter. */
  lemma RemoveIdCons(q: Value, rest: seq<Value>, id: string)
    ensures RemoveId([q] + rest, id) == (if HasId(q, id) then [] else [q]) + RemoveId(rest, id)
  {
    assert ([q] + rest)[0] == q && ([q] + rest)[1..] == rest;
  }

  /** The filter drops every record with the id and keeps every other one as often as it occurs. */
  lemma {:induction false} RemoveIdCounts(qs: seq<Value>, id: string, q: Value)
    ensures multiset(RemoveId(qs, id))[q] == if HasId(q, id) then 0 else multiset(qs)[q]
  {
    if qs != [] {
      RemoveIdCounts(qs[1..], id, q);
      assert qs == [qs[0]] + qs[1..];
    }
  }

  /** The filter changes the length exactly when some record has the id. */
  lemma {:induction false} RemoveIdSameLength(qs: seq<Value>, id: string)
    ensures |RemoveId(qs, id)| == |qs| <==> FindIndex(qs, id) == -1
    ensures FindIndex(qs, id) == -1 ==> RemoveId(qs, id) == qs
  {
    if qs != [] {
      RemoveIdSameLength(qs[1..], id);
      assert forall j :: 1 <= j < |qs| ==> qs[j] == qs[1..][j - 1];
    }
  }

  /** `getQuizTypeLabel`: the label of a known quiz type, any other type as it is. */
  function TypeLabel(t: string): (r: string)
    ensures t == "single-choice" ==> r == "Single-Choice"
    ensures t == "multiple-choice" ==> r == "Multiple-Choice"
    ensures t == "true-false" ==> r == "Wahr / Falsch"
  {
    if t == "single-choice" then "Single-Choice"
    else if t == "multiple-choice" then "Multiple-Choice"
    else if t == "true-false" then "Wahr / Falsch"
    else t
  }

  /** A type is shown as it is exactly when it is not one of the three known types. */
  lemma TypeLabelUnknown(t: string)
    ensures TypeLabel(t) == t <==> t !in {"single-choice", "multiple-choice", "true-false"}
  {
  }

  // ---------------------------------------------------------------------------
  // Export and import
  // ---------------------------------------------------------------------------

  /** `{ version: 1, quizzes }`, what `exportAllQuizzesToString` encodes. */
  function AllPayload(qs: seq<Value>): Value {
    JObject([Member("version", JNumber(1)), Member("quizzes", JArray(qs))])
  }

  /** `parsed.quizzes` is an array. */
  predicate HasQuizList(p: Value) {
    Prop(p, "quizzes").Some? && Prop(p, "quizzes").value.JArray?
  }

  /** `parsed.id && parsed.title`. */
  predicate IsSingleQuiz(p: Value) {
    Prop(p, "id").Some? && Truthy(Prop(p, "id").value) && Prop(p, "title").Some? && Truthy(Prop(p, "title").value)
  }

  /** The records an import brings, by the three accepted shapes in turn. */
  function ImportedRecords(p: Value): (r: Result<seq<Value>, Codec.ImportError>)
    ensures r.Err? <==> !HasQuizList(p) && !p.JArray? && !IsSingleQuiz(p)
    ensures r.Err? ==> r.error == Codec.UnknownShape
    ensures HasQuizList(p) ==> r == Ok(Prop(p, "quizzes").value.items)
    ensures !HasQuizList(p) && p.JArray? ==> r == Ok(p.items)
    ensures !HasQuizList(p) && !p.JArray? && IsSingleQuiz(p) ==> r == Ok([p])
  {
    if Truthy(p) && HasQuizList(p) then Ok(Prop(p, "quizzes").value.items)
    else if p.JArray? then Ok(p.items)
    else if Truthy(p) && IsSingleQuiz(p) then Ok([p])
    else Err(Codec.UnknownShape)
  }

  /** A record as an import writes it: a fresh id, the defaults for missing or falsy fields, one timestamp. */
  function Normalized(nq: Value, id: string, now: string): (r: Value)
    requires WellFormed(nq)
    ensures IsRecord(r)
  {
    PropWellFormed(nq, "title");
    PropWellFormed(nq, "type");
    PropWellFormed(nq, "questions");
    var fs := RecordFields(Some(JString(id)),
                           Some(OrElse(Prop(nq, "title"), JString("Untitled"))),
                           Some(OrElse(Prop(nq, "type"), JString("single-choice"))),
                           Some(OrElse(Prop(nq, "questions"), JArray([]))), now);
    assert WellFormedFields(fs);
    JObject(With([], fs))
  }

  /**
   * An imported record has the new id, the imported title, type and questions
   * where they are truthy and `'Untitled'`, `'single-choice'` and `[]` where
   * not, one timestamp for `createdAt` and `updatedAt`, and no other field.
   */
  lemma NormalizedContents(nq: Value, id: string, now: string)
    requires WellFormed(nq)
    ensures var r := Normalized(nq, id, now);
      && HasId(r, id)
      && Prop(r, "title") == Some(OrElse(Prop(nq, "title"), JString("Untitled")))
      && Prop(r, "type") == Some(OrElse(Prop(nq, "type"), JString("single-choice")))
      && Prop(r, "questions") == Some(OrElse(Prop(nq, "questions"), JArray([])))
      && Prop(r, "createdAt") == Some(JString(now)) && Prop(r, "updatedAt") == Prop(r, "createdAt")
      && forall k :: k !in RecordKeys ==> Prop(r, k).None?
  {
    RecordFieldsGet(Some(JString(id)),
                    Some(OrElse(Prop(nq, "title"), JString("Untitled"))),
                    Some(OrElse(Prop(nq, "type"), JString("single-choice"))),
                    Some(OrElse(Prop(nq, "questions"), JArray([]))), now);
    forall k | k !in RecordKeys ensures Prop(Normalized(nq, id, now), k).None? {
      RecordFieldsOnly(Some(JString(id)),
                       Some(OrElse(Prop(nq, "title"), JString("Untitled"))),
                       Some(OrElse(Prop(nq, "type"), JString("single-choice"))),
                       Some(OrElse(Prop(nq, "questions"), JArray([]))), now, k);
    }
  }

  /** `newQuizzes.map(...)`: the records normalised, the i-th with id `newId(i)`; reading a field of `null` throws. */
  function NormalizeAll(nqs: seq<Value>, newId: nat -> string, now: string): (r: Result<seq<Value>, Codec.ImportError>)
    requires WellFormedItems(nqs)
    ensures r.Err? <==> exists i :: 0 <= i < |nqs| && nqs[i] == JNull
    ensures r.Err? ==> r.error == Codec.NullRecord
    ensures r.Ok? ==> |r.value| == |nqs| && IsRecords(r.value)
    ensures r.Ok? ==> forall i :: 0 <= i < |nqs| ==> r.value[i] == Normalized(nqs[i], newId(i), now)
  {
    if exists i :: 0 <= i < |nqs| && nqs[i] == JNull then Err(Codec.NullRecord)
    else
      var rs := seq(|nqs|, i requires 0 <= i < |nqs| => Normalized(nqs[i], newId(i), now));
      assert forall i :: 0 <= i < |rs| ==> rs[i] == Normalized(nqs[i], newId(i), now);
      Ok(rs)
  }

  /** The records a parsed import brings, normalised, or why the import throws. */
  function PlanOf(p: Value, newId: nat -> string, now: string): (r: Result<seq<Value>, Codec.ImportError>)
    requires WellFormed(p)
    ensures r.Ok? ==> IsRecords(r.value)
  {
    match ImportedRecords(p)
    case Err(e) => Err(e)
    case Ok(nqs) =>
      assert WellFormedItems(nqs) by {
        PropWellFormed(p, "quizzes");
      }
      NormalizeAll(nqs, newId, now)
  }

  /** Everything `importQuizzesFromString` decides before it writes: the records to append, or why it throws. */
  function ImportPlan(str: string, newId: nat -> string, now: string): (r: Result<seq<Value>, Codec.ImportError>)
    ensures r.Ok? ==> IsRecords(r.value)
    ensures Codec.ParseImportString(str).Err? ==> r == Err(Codec.ParseImportString(str).error)
  {
    match Codec.ParseImportString(str)
    case Err(e) => Err(e)
    case Ok(p) => PlanOf(p, newId, now)
  }

  lemma PlanAfterParse(str: string, p: Value, newId: nat -> string, now: string)
    requires Codec.ParseImportString(str) == Ok(p)
    ensures WellFormed(p) && ImportPlan(str, newId, now) == PlanOf(p, newId, now)
  {
  }

  lemma PayloadShape(qs: seq<Value>)
    requires IsRecords(qs)
    ensures WellFormed(AllPayload(qs)) && WellFormedItems(qs)
    ensures HasQuizList(AllPayload(qs)) && Prop(AllPayload(qs), "quizzes").value.items == qs
  {
    RecordsAreItems(qs);
    var ms := [Member("version", JNumber(1)), Member("quizzes", JArray(qs))];
    assert ms[0].key != "quizzes";
    GetCons(ms, "quizzes");
    assert ms[1..] == [Member("quizzes", JArray(qs))];
    GetCons(ms[1..], "quizzes");
  }

  /** The normalised records of a list without `null` are all there, in order. */
  lemma NormalizeAllOk(nqs: seq<Value>, newId: nat -> string, now: string)
    requires IsRecords(nqs)
    ensures WellFormedItems(nqs)
    ensures NormalizeAll(nqs, newId, now).Ok?
  {
    RecordsAreItems(nqs);
    assert forall i :: 0 <= i < |nqs| ==> nqs[i].JObject?;
  }

  /**
   * Importing the text `exportAllQuizzesToString` writes brings every exported
   * record back, in order, each normalised under a new id.
   */
  lemma ExportAllImport(qs: seq<Value>, newId: nat -> string, now: string)
    requires IsRecords(qs)
    ensures Codec.ParseImportString(Codec.ExportText(AllPayload(qs))) == Ok(AllPayload(qs))
    ensures WellFormedItems(qs)
    ensures ImportPlan(Codec.ExportText(AllPayload(qs)), newId, now) == NormalizeAll(qs, newId, now)
    ensures NormalizeAll(qs, newId, now).Ok?
  {
    var p := AllPayload(qs);
    PayloadShape(qs);
    Codec.ExportImport(p);
    PlanAfterParse(Codec.ExportText(p), p, newId, now);
    NormalizeAllOk(qs, newId, now);
  }

  /** Importing the export text of one record brings that record back under a new id. */
  lemma ExportOneImport(q: Value, newId: nat -> string, now: string)
    requires IsRecord(q) && IsSingleQuiz(q) && !HasQuizList(q)
    ensures ImportPlan(Codec.ExportText(q), newId, now) == Ok([Normalized(q, newId(0), now)])
  {
    Codec.ExportImport(q);
    PlanAfterParse(Codec.ExportText(q), q, newId, now);
    assert ImportedRecords(q) == Ok([q]);
    NormalizeOne(q, newId, now);
  }

  lemma NormalizeOne(q: Value, newId: nat -> string, now: string)
    requires IsRecord(q)
    ensures WellFormedItems([q])
    ensures NormalizeAll([q], newId, now) == Ok([Normalized(q, newId(0), now)])
  {
    assert WellFormedItems([q]);
    var r := NormalizeAll([q], newId, now);
    assert r.Ok? && |r.value| == 1 && r.value[0] == Normalized(q, newId(0), now);
    assert r.value == [Normalized(q, newId(0), now)];
  }

  // ---------------------------------------------------------------------------
  // The store
  // ---------------------------------------------------------------------------

  /** The browser's key-value storage as the quiz store sees it. */
  class QuizStore {
    var storage: map<string, string>

    predicate Valid()
      reads this
    {
      ValidStorage(storage)
    }

    constructor(initial: map<string, string>)
      requires ValidStorage(initial)
      ensures storage == initial && Valid()
    {
      storage := initial;
    }

    /** `loadQuizzes`: the stored records. */
    function LoadQuizzes(): (r: seq<Value>)
      reads this
      requires Valid()
      ensures IsRecords(r)
      ensures Document(storage).None? ==> r == []
    {
      Load(Document(storage)).items
    }

    /** `loadQuizById`: the first record with the id, `None` (`null`) when there is none. */
    function LoadQuizById(id: string): (r: Option<Value>)
      reads this
      requires Valid()
      ensures r.None? <==> forall j :: 0 <= j < |LoadQuizzes()| ==> !HasId(LoadQuizzes()[j], id)
      ensures r.Some? ==> exists k :: 0 <= k < |LoadQuizzes()| && r.value == LoadQuizzes()[k] && HasId(r.value, id) &&
                                      forall j :: 0 <= j < k ==> !HasId(LoadQuizzes()[j], id)
    {
      var qs := LoadQuizzes();
      var k := FindIndex(qs, id);
      if k == -1 then None else Some(qs[k])
    }

    /** `saveQuizzes`: write the records as JSON; a failed write (`writable` false) changes nothing. */
    method SaveQuizzes(quizzes: seq<Value>, writable: bool) returns (ok: bool)
      requires IsRecords(quizzes)
      modifies this
      ensures ok == writable
      ensures storage == if writable then old(storage)[StorageKey := Stringify(JArray(quizzes))] else old(storage)
      ensures Valid() == (writable || old(Valid()))
      ensures writable ==> LoadQuizzes() == quizzes
    {
      if writable {
        storage := storage[StorageKey := Stringify(JArray(quizzes))];
        LoadSaved(quizzes);
      }
      ok := writable;
    }

    /**
     * `createQuiz`: append a new record; the new id is returned whether the write succeeds or not.
     * A null draft throws before anything is written.
     */
    method CreateQuiz(data: Value, id: string, now: string, writable: bool) returns (newId: string)
      requires Valid() && WellFormed(data) && data != JNull
      modifies this
      ensures newId == id && Valid()
      ensures writable ==> LoadQuizzes() == old(LoadQuizzes()) + [NewRecord(data, id, now)]
      ensures !writable ==> storage == old(storage)
    {
      var quizzes := LoadQuizzes();
      var rec := NewRecord(data, id, now);
      quizzes := quizzes + [rec];
      var _ := SaveQuizzes(quizzes, writable);
      newId := id;
    }

    /**
     * `updateQuiz`: revise the first record with the id; `false` and no write when there is none.
     * The draft is read only once a record is found, and a null draft throws there.
     */
    method UpdateQuiz(id: string, data: Value, now: string, writable: bool) returns (ok: bool)
      requires Valid() && WellFormed(data)
      requires data != JNull || FindIndex(LoadQuizzes(), id) == -1
      modifies this
      ensures Valid()
      ensures FindIndex(old(LoadQuizzes()), id) == -1 ==> !ok && storage == old(storage)
      ensures FindIndex(old(LoadQuizzes()), id) != -1 ==> ok == writable
      ensures FindIndex(old(LoadQuizzes()), id) != -1 && writable ==>
        var k := FindIndex(old(LoadQuizzes()), id);
        LoadQuizzes() == old(LoadQuizzes())[k := Revised(old(LoadQuizzes())[k], data, now)]
      ensures !writable ==> storage == old(storage)
    {
      var quizzes := LoadQuizzes();
      var index := FindIndex(quizzes, id);
      if index == -1 {
        return false;
      }
      quizzes := quizzes[index := Revised(quizzes[index], data, now)];
      ok := SaveQuizzes(quizzes, writable);
    }

    /** `deleteQuiz`: drop every record with the id; `false` and no write when there is none. */
    method DeleteQuiz(id: string, writable: bool) returns (ok: bool)
      requires Valid()
      modifies this
      ensures Valid()
      ensures FindIndex(old(LoadQuizzes()), id) == -1 ==> !ok && storage == old(storage)
      ensures FindIndex(old(LoadQuizzes()), id) != -1 ==> ok == writable
      ensures FindIndex(old(LoadQuizzes()), id) != -1 && writable ==> LoadQuizzes() == RemoveId(old(LoadQuizzes()), id)
      ensures !writable ==> storage == old(storage)
    {
      var quizzes := LoadQuizzes();
      var filtered := RemoveId(quizzes, id);
      RemoveIdSameLength(quizzes, id);
      if |filtered| == |quizzes| {
        return false;
      }
      ok := SaveQuizzes(filtered, writable);
    }

    /** `exportAllQuizzesToString`: its text reads back as `{ version: 1, quizzes }`. */
    function ExportAllQuizzesToString(): (r: string)
      reads this
      requires Valid()
      ensures Codec.ParseImportString(r) == Ok(AllPayload(LoadQuizzes()))
    {
      ExportAllImport(LoadQuizzes(), _ => "", "");
      Codec.ExportText(AllPayload(LoadQuizzes()))
    }

    /**
     * `importQuizzesFromString`: append the imported records and report how
     * many. When the text does not parse or has no accepted shape nothing is
     * written; the count is reported even when the write fails.
     */
    method ImportQuizzesFromString(str: string, newId: nat -> string, now: string, writable: bool)
      returns (r: Result<nat, Codec.ImportError>)
      requires Valid()
      modifies this
      ensures Valid()
      ensures r.Err? <==> ImportPlan(str, newId, now).Err?
      ensures r.Err? ==> r.error == ImportPlan(str, newId, now).error && storage == old(storage)
      ensures r.Ok? ==> r.value == |ImportPlan(str, newId, now).value|
      ensures r.Ok? && writable ==> LoadQuizzes() == old(LoadQuizzes()) + ImportPlan(str, newId, now).value
      ensures !writable ==> storage == old(storage)
    {
      var plan := ImportPlan(str, newId, now);
      if plan.Err? {
        return Err(plan.error);
      }
      var existing := LoadQuizzes();
      var normalized := plan.value;
      var combined := existing + normalized;
      var _ := SaveQuizzes(combined, writable);
      r := Ok(|normalized|);
    }
  }
}
