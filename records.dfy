/**
 * Questions and answers as the Reflex front end reads them out of the API's
 * JSON response: dictionaries in which any key may be missing.
 */
module Records {
  import opened Wrappers

  datatype AnswerRecord = AnswerRecord(id: Option<int>, text: Option<string>, isCorrect: Option<bool>)

  datatype QuestionRecord = QuestionRecord(id: Option<int>, text: Option<string>, answers: Option<seq<AnswerRecord>>)
}
