/**
 The shapes the survey pipeline works on: a survey response with its three
 answers, the statistics kept per vocabulary term, and the floating word that
 the starfield displays.
 */
module Types {

  datatype Option<+T> = None | Some(value: T)

  /** The question a text answers (`'q1' | 'q2' | 'q3'`), or `'all'` for a term seen under several. */
  datatype Category = Q1 | Q2 | Q3 | All

  /** A category that names one question. */
  type Field = c: Category | c != All witness Q1

  /** The three questions in the order every scan visits them. */
  const Questions: seq<Field> := [Q1, Q2, Q3]

  lemma QuestionsCoverFields(f: Field)
    ensures f in Questions
  {
  }

  /** One normalised survey response. */
  datatype Response = Response(question1: string, question2: string, question3: string)

  /** The answer a response gives to one question. */
  function FieldText(r: Response, f: Field): string
  {
    if f == Q1 then r.question1 else if f == Q2 then r.question2 else r.question3
  }

  /** The statistics of one vocabulary term. */
  datatype Keyword = Keyword(text: string, frequency: nat, category: Category, responses: seq<nat>)

  /**
   The four `Math.random()` values a floating word consumes, in the order they
   are drawn: x, y, speed, opacity.
   */
  datatype Draw = Draw(x: real, y: real, speed: real, opacity: real)

  /** One keyword placed on the starfield together with the paragraph it opens. */
  datatype FloatingWord = FloatingWord(
    id: string,
    text: string,
    x: real,
    y: real,
    speed: real,
    size: real,
    opacity: real,
    category: Field,
    responseIndex: nat,
    fullText: string)
}
