# Quiz store and quiz editor, modelled in Dafny

The quiz app keeps every quiz as one record in a JSON array, stored as text
under the single key `quizApp_quizzes` of the browser's key-value storage.
The model covers the two parts of the app that hold its logic:
- the store (`js/storage.js`): load, save, find, create, update, delete, the
  type labels, export to text and import from text;
- the editor page (`js/create.js`): reading the form into a draft, the
  checks `saveQuiz` makes before it saves, and the minimum counts the remove
  buttons keep.

Modules:
- `Basics` holds `Option`, `Result`, `Byte` and a few generic sequence facts.
- `JsString` models `trim`, `indexOf`, `endsWith` and `replace` with a string
  pattern.
- `Json` models JavaScript values as they pass through JSON. An object is an
  ordered member list in insertion order. It also gives property reads,
  assignment, a property that is `undefined`, object spread and truthiness,
  and `JSON.stringify`.
- `JsonParse` is `JSON.parse`, a recursive-descent reader, with the proof
  that it inverts `Stringify`.
- `Utf8` is `unescape(encodeURIComponent(..))` and
  `decodeURIComponent(escape(..))`, read as strict UTF-8 (RFC 3629).
- `Base64` is `btoa` and the forgiving `atob`: the alphabet of section 4 of
  RFC 4648, white space ignored, padding optional.
- `Codec` is the export text and `parseImportString`.
- `Storage` has the pure parts of the collection operations and
  `class QuizStore`, whose one field `storage: map<string, string>` is the
  browser's storage. `loadQuizzes` is a function of that field; the
  operations that write are methods that reassign it.
- `CreateForm` holds:
  - the form state (`Form`, `QuestionItem`, `AnswerItem`);
  - `Collected` and `BuildDraft`, the specification of what `saveQuiz`
    builds or rejects;
  - `class CreatePage`, with the edit-mode state and the form. Its methods
    are the form-editing operations, the `collectQuestionData` loops, the
    loop that looks for an unanswered question, and `saveQuiz`.

Inputs from outside the program are parameters:
- the result of `generateId` is an `id: string` for `createQuiz`, and a
  function `newId: nat -> string` for the records of an import, giving the
  i-th record its id;
- the clock reading `new Date().toISOString()` is `now: string`, one
  instant for both timestamps of a record and for every record of an import;
- whether `localStorage.setItem` succeeds is `writable: bool`;
- what the page reads from the DOM is the `Form` value.

Importing the export text gives back what was exported, for EVERY
well-formed value, not just for objects and arrays. The import first tries
the text as raw JSON. But the first Base64 symbol of any JSON text is one of
`b d Z I L M N O W e`, and no JSON text starts with any of those. So the
raw attempt always fails on an export text (`Codec.ExportNotJson`).

`importQuizzesFromString` reports the number of records it added even when
the write fails, because it ignores the result of `saveQuizzes`. The model
keeps that behaviour.

The editor reads `quiz.timeChallenge` back when it opens a quiz for editing
(js/create.js:60-67). But `createQuiz` and `updateQuiz` copy only the title,
type and questions of the draft. So no stored quiz has a time challenge, and a
timed quiz reopens untimed (`CreateForm.CreatedFromDraft`). The model keeps
the store as written.

## Model

| member | source | states |
|---|---|---|
| Storage.Load | js/storage.js:12-21 | no stored text, empty text or text that does not parse loads as `[]`; the result is always a well-formed value |
| Storage.LoadSaved | js/storage.js:27-36 | loading what `saveQuizzes` wrote gives back exactly the records saved |
| Storage.QuizStore.LoadQuizzes | js/storage.js:12-21 | the loaded collection is a list of records, and `[]` when nothing is stored |
| Storage.QuizStore.SaveQuizzes | js/storage.js:27-36 | returns whether the write succeeded; a successful write stores the JSON text of the records (and they load back); a failed one changes nothing |
| Storage.FindIndex | js/storage.js:80 | `findIndex`: the first record with the id, or -1 exactly when no record has it |
| Storage.QuizStore.LoadQuizById | js/storage.js:43-46 | `null` exactly when no record has the id; otherwise the first record with it |
| Storage.NewRecordContents | js/storage.js:57-64 | the new record has the given id, the draft's title, type and questions, `createdAt == updatedAt == now`, and no other field |
| Storage.QuizStore.CreateQuiz | js/storage.js:53-70 | returns the id; after a successful write the collection is the old one with exactly the new record appended; a failed write changes nothing |
| Storage.FreshIdFindsNew | js/storage.js:53-70 | with an id no stored record has, the id finds the appended record |
| Storage.RevisedContents | js/storage.js:88-94 | the revised record has the draft's title, type and questions and the new `updatedAt`; `id`, `createdAt` and every other field keep their values |
| Storage.QuizStore.UpdateQuiz | js/storage.js:78-97 | an unknown id returns `false` and writes nothing; otherwise it returns the save result and, on success, only the first record with the id is replaced by its revision |
| Storage.RemoveIdCounts | js/storage.js:106 | the filter drops every record with the id and keeps each other record as often as it occurred |
| Storage.RemoveIdConcat | js/storage.js:106 | the filter keeps the order: filtering a concatenation filters each part |
| Storage.RemoveIdSameLength | js/storage.js:106-111 | the length is unchanged exactly when no record has the id, and then nothing is removed |
| Storage.QuizStore.DeleteQuiz | js/storage.js:104-114 | an unknown id returns `false` and writes nothing; otherwise it returns the save result and, on success, the collection is the filtered one |
| Storage.TypeLabel | js/storage.js:129-136 | the three known types map to their labels |
| Storage.TypeLabelUnknown | js/storage.js:135 | a type is shown as it is exactly when it is not one of the three known types |
| Codec.ParseImportString | js/storage.js:176-196 | empty input is the only `NoInput` error; anything parsed is well-formed; the only other failure is `Unparseable` |
| Codec.RawJsonImport | js/storage.js:183-187 | raw JSON text of a value imports as that value |
| Codec.ExportNotJson | js/storage.js:183-187 | no export text parses as raw JSON |
| Codec.ExportImport | js/storage.js:144-152 | `parseImportString(exportQuizToString(v)) == v` for every well-formed value |
| JsonParse.RoundTrip | js/storage.js:29 | `JSON.parse(JSON.stringify(v))` is `v` for every well-formed value |
| JsonParse.Parse | js/storage.js:16 | every value parsed has distinct keys in each object: a repeated key overwrites the earlier value in its place |
| Utf8.DecodeEncode | js/storage.js:191 | decoding the UTF-8 encoding of a string gives the string back |
| Utf8.EncodeDecode | js/storage.js:191 | the bytes that decode are the encoding of what they decode to |
| Base64.DecodeEncode | js/storage.js:191 | `atob(btoa(b)) == b` for every byte string |
| Base64.EncodeLength | js/storage.js:147 | `btoa` output comes in whole groups of four symbols |
| Base64.EncodeAlphabet | js/storage.js:147 | `btoa` output uses only the alphabet and `=` |
| Storage.QuizStore.ExportAllQuizzesToString | js/storage.js:158-168 | the export text reads back as `{ version: 1, quizzes }` with the loaded records |
| Storage.ImportedRecords | js/storage.js:208-216 | the three accepted shapes in turn: a `quizzes` array, an array, a single quiz with truthy `id` and `title`; anything else is `UnknownShape` |
| Storage.NormalizedContents | js/storage.js:222-229 | an imported record has the new id, its title, type and questions where truthy and `'Untitled'`, `'single-choice'`, `[]` where not, one timestamp, and no other field |
| Storage.NormalizeAll | js/storage.js:222-229 | every record normalised under the id for its position; reading the fields of a `null` record fails |
| Storage.ExportAllImport | js/storage.js:204-235 | importing the text of `exportAllQuizzesToString` brings back every exported record, in order, each normalised |
| Storage.ExportOneImport | js/storage.js:204-235 | importing the export text of one quiz brings back that quiz, normalised under a new id |
| Storage.QuizStore.ImportQuizzesFromString | js/storage.js:204-235 | a parse failure or an unknown shape writes nothing; otherwise the count of imported records is returned and, on success, the old records are an unchanged prefix of the new collection |
| JsString.TrimShape | js/create.js:295 | `trim` cuts only white space from either end, leaves no white space at its ends, and is empty exactly for all-white-space text |
| JsString.ReplaceAbsent | js/create.js:352 | text in which the pattern occurs nowhere is returned unchanged |
| JsString.ReplaceEarliest | js/create.js:352 | only the earliest occurrence of the pattern is replaced; the text before and after it is kept |
| CreateForm.TimedType | js/create.js:351-353 | a type `t-time` is saved as `t`, and its time challenge is on |
| CreateForm.UntimedType | js/create.js:351-353 | a type without `-time` is saved as it is, and its time challenge is off |
| CreateForm.TimeSettings | js/create.js:359-365 | `enabled` exactly when the type ends with `-time`; the inputs when timed, 60/5/3 when not; `repeatWrongQuestions` always |
| CreateForm.AnswerTextsTrimmed | js/create.js:309-312 | one trimmed text per answer row, in order |
| CreateForm.CheckedValuesChecked | js/create.js:314-317 | every correct answer collected is the value of a checked row, and every checked row's value is collected |
| CreateForm.CheckedValuesAtPositions | js/create.js:314-317 | one correct answer per checked row, in row order: the k-th is the value of the k-th checked row |
| CreateForm.CheckedPositionsExact | js/create.js:314-317 | the checked positions list every checked row, in increasing order |
| CreateForm.FirstCheckedFirst | js/create.js:305-306 | no value exactly when no radio is checked; otherwise the value of the first checked one |
| CreateForm.BlockRead | js/create.js:295-324 | a true/false block fails exactly when no radio is checked, else gives `['Wahr', 'Falsch']` and one correct index; any other block gives its trimmed answer texts and checked values |
| CreateForm.CollectedElements | js/create.js:290-328 | collection succeeds exactly when every block reads, and then holds each block's question in order |
| CreateForm.CreatePage.CollectBlock | js/create.js:295-324 | the loop over one block's rows computes what `CollectedQuestion` specifies |
| CreateForm.CreatePage.CollectBlocks | js/create.js:291-327 | the loop over the blocks computes `Collected`, stopping at the first block that fails |
| CreateForm.CreatePage.CollectQuestionData | js/create.js:290-328 | the blocks of the form, read with the type the form shows |
| CreateForm.FirstUnanswered | js/create.js:369-373 | none exactly when every question has a correct answer; otherwise the first index without one |
| CreateForm.CreatePage.FindUnanswered | js/create.js:369-373 | the index loop finds `FirstUnanswered` |
| CreateForm.DraftRejections | js/create.js:335-373 | the checks come in order: title, type, question count, reading the blocks, then the first question without a correct answer, reported as its index plus one |
| CreateForm.DraftAccepted | js/create.js:350-373 | a draft is built exactly when all checks pass; it holds the trimmed title, the type without `-time`, the collected questions and the time settings |
| CreateForm.DraftJsonContents | js/create.js:355-366 | `quizData` has the draft's title, type, questions and time challenge |
| CreateForm.CreatedFromDraft | js/storage.js:57-64 | the record created for a draft has its title, type and questions, and no `timeChallenge` |
| CreateForm.CreatePage.constructor | js/create.js:30-41 | edit mode exactly when the page has a non-empty `id` parameter, with that id and the form unchanged; otherwise the form gets the block `addQuestion()` adds |
| CreateForm.CreatePage.AddQuestion | js/create.js:151-204 | one empty block appended with two rows valued 0 and 1, the first checked for true/false; the rest of the form is unchanged |
| CreateForm.CreatePage.AddAnswer | js/create.js:216-239 | one row appended whose value is the number of rows before it; nothing else changes |
| CreateForm.CreatePage.RemoveAnswer | js/create.js:245-256 | at two rows or fewer nothing changes; otherwise exactly that row goes and the rows are renumbered |
| CreateForm.CreatePage.RemoveQuestion | js/create.js:262-273 | at one block or fewer nothing changes; otherwise exactly that block goes |
| CreateForm.CheckedValuesArePositions | js/create.js:226 | when rows are numbered by position, the collected correct answers are the positions of the checked rows |
| CreateForm.CollectedIndicesValid | js/create.js:316 | with numbered rows every collected correct answer is a valid index of a checked answer |
| CreateForm.RemoveAnswerAsWrittenBreaksIndex | js/create.js:255 | after `answerItem.remove()` as written, a question with two answers can report correct answer 2 |
| CreateForm.CreatePage.SaveQuiz | js/create.js:333-392 | rejected exactly when `BuildDraft` fails, with its reason, writing nothing; otherwise `updateQuiz` in edit mode, `createQuiz` if not, with the draft's object |

## Left out

- The DOM: HTML building, `escapeHtml`, event listeners, `renumberQuestions`, toasts, `alert`, redirects and `console` output; the form the page shows is a `Form` value.
- `loadQuizForEditing`, `addQuestion` with data, and the re-render when the type changes: these rebuild the DOM from a stored quiz.
- `questionCounter`: it only names DOM elements and labels.
- `js/index.js`: rendering, clipboard and page navigation that call the store.
- `generateId`: its result is a parameter. The model assumes nothing about uniqueness; `Storage.FreshIdFindsNew` says what a fresh id gives.
- The clock: `now` is a parameter. A record's two timestamps are read at one instant.
- Storage.NormalizeAll: one `now` serves every record of an import, where the source reads the clock twice per record (js/storage.js:227-228).
- A failing `localStorage.setItem` is the `writable` parameter, not storage quota.
- `Storage.QuizStore.Valid`: a stored document that parses to something other than an array of objects is outside the model. This code only ever writes such arrays.
- Numbers are unbounded integers, not IEEE doubles. `JSON.parse` of a fraction or exponent is a parse failure in the model. Integers beyond 2^53 are not rounded, and `JSON.stringify` of numbers from 1e21 up is written out in full rather than with an exponent.
- Lone surrogates: a Dafny `char` is a Unicode scalar value. So the throwing `encodeURIComponent` case and `\ud800`-style escapes are not modelled.
- Integer-like keys: JavaScript lists them first in an object, and the model keeps plain insertion order.
- The `typeof str !== 'string'` test: the input is always a string.
- The `null` that `exportQuizToString` returns on an exception: the model's values never make `JSON.stringify` throw.
- Storage.TypeLabelUnknown: `types[type] || type` also finds names inherited from `Object.prototype` (`constructor`, `toString`, `hasOwnProperty`, `__proto__` and the like), and for those the source shows a function rather than the type. Only own properties are modelled, so the lemma says such a type is shown as it is.
- Storage.QuizStore.CreateQuiz: a `null` draft makes `quizData.title` throw before anything is written. The model requires a non-null draft. `saveQuiz`, the only caller, always passes an object.
- Storage.QuizStore.UpdateQuiz: the draft is read only once a record with the id is found, and a `null` draft throws there. The model requires a non-null draft or an id that no record has.
- `parseInt` of an empty or non-numeric time input (`NaN`): the time inputs are integers.

## Findings

| source | as written | input that shows it | evidently intended | confidence | as-written member | corrected member |
|---|---|---|---|---|---|---|
| js/create.js:255 | `removeAnswer` removes the row, and the other rows keep the `value` attribute (`answerIndex`, js/create.js:226) that `collectQuestionData` saves as the correct answer's index (js/create.js:316) | three answers a, b, c with c checked; remove a; the saved question has answers [b, c] and correctAnswers [2] | the rows are renumbered after a removal, so every saved correct answer indexes a checked answer | not executed | CreateForm.RemoveAnswerAsWrittenBreaksIndex | CreateForm.CreatePage.RemoveAnswer |
