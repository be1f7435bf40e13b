/**
 Normalisation of the raw survey rows: every row, a mapping from the full
 question wording to the answer, becomes a `Response` with one text per
 question. The rows are a parameter here; the dataset file itself is not part
 of this model.
 */
module RawData {
  import opened Types

  type Row = map<string, string>

  const Question1Key: string := "在你印象中，當您身處夜晚海岸的自然場域時，您最想探索或感受它哪一種「場域精神」(Genius Loci)？ (例如：時間的痕跡、海浪的聲音、夜的寂靜、岩石堅實等。請簡述)"
  const Question2Key: string := "您認為藝術或文化在面對「自然場域」時，最能夠發揮的影響力或連結方式是什麼？ (例如：重新詮釋地景、創造新的儀式、記錄變遷、或促進公眾對話等。請簡述)"
  const Question3Key: string := "您希望在本次夜遊的體驗中，獲得什麼樣的靈感啟發？ (請簡述)"

  /** The row key whose answer becomes the text of question `f`. */
  function KeyOf(f: Field): string
  {
    if f == Q1 then Question1Key else if f == Q2 then Question2Key else Question3Key
  }

  /** `item[key] || ''`: the answer, or the empty text when the row lacks the key. */
  function Answer(row: Row, key: string): string
  {
    if key in row then row[key] else ""
  }

  function Normalize(row: Row): Response
  {
    Response(Answer(row, Question1Key), Answer(row, Question2Key), Answer(row, Question3Key))
  }

  /**
   `processRawData`: one response per row, in row order; each text is the
   row's answer to that question, or empty when the row does not have it.
   */
  function ProcessRawData(rows: seq<Row>): (responses: seq<Response>)
    ensures |responses| == |rows|
    ensures forall i, f: Field :: 0 <= i < |rows| ==>
      FieldText(responses[i], f) == (if KeyOf(f) in rows[i] then rows[i][KeyOf(f)] else "")
  {
    seq(|rows|, i requires 0 <= i < |rows| => Normalize(rows[i]))
  }

  /** The row that answers each question with the text a response gives. */
  function RowOf(r: Response): Row
  {
    map[Question1Key := r.question1, Question2Key := r.question2, Question3Key := r.question3]
  }

  /** The three question keys are different strings. */
  lemma KeysDistinct()
    ensures Question1Key != Question2Key && Question1Key != Question3Key && Question2Key != Question3Key
  {
    assert |Question1Key| != |Question2Key|;
    assert |Question1Key| != |Question3Key|;
    assert |Question2Key| != |Question3Key|;
  }

  /** Normalising the row built from a response gives that response back. */
  lemma NormalizeRowOf(r: Response)
    ensures Normalize(RowOf(r)) == r
  {
    KeysDistinct();
  }

  /** Only the three question keys matter: other keys of a row are ignored. */
  lemma NormalizeIgnoresOtherKeys(a: Row, b: Row)
    requires forall f: Field :: Answer(a, KeyOf(f)) == Answer(b, KeyOf(f))
    ensures Normalize(a) == Normalize(b)
  {
    assert Answer(a, KeyOf(Q1)) == Answer(b, KeyOf(Q1));
    assert Answer(a, KeyOf(Q2)) == Answer(b, KeyOf(Q2));
    assert Answer(a, KeyOf(Q3)) == Answer(b, KeyOf(Q3));
  }
}
