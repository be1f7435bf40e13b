/**
 The fixed vocabulary `extractKeywords` scans for: 117 terms in seven groups,
 in their listed order, and the proof that no term is listed twice. The proof
 goes group by group: each group has no repeats, and no two groups share a term.
 */
module Lexicon {
  import opened Seqs

  /** Terms of time. */
  const TimeTerms: seq<string> := [
    "時間", "遺痕", "變遷", "里程", "改變", "歷史", "經年"
  ]

  /** Elements of nature. */
  const NatureTerms: seq<string> := [
    "海浪", "星空", "夜", "暗", "暗空", "寂靜", "聲音", "聲響", "海洋", "星", "浪", "黑", "光", "月", "月色", "風", "風向",
    "空氣", "潮汐", "礁岩", "沙灘", "石礫", "海域", "宇宙", "大地", "地景", "場域", "自然"
  ]

  /** Sensory experience. */
  const SenseTerms: seq<string> := [
    "氣味", "味道", "質地", "溫度", "濕度", "紋理", "體感", "觸感", "視覺", "聽覺", "感官", "本能", "敏感度", "動能", "身體"
  ]

  /** Abstract notions. */
  const AbstractTerms: seq<string> := [
    "連結", "能量", "生命", "生命力", "精神", "養分", "靈感", "啟發", "想像", "想像力", "敬畏", "融合", "一體", "冥想", "沉思",
    "寧靜", "模糊", "流動", "開放", "沉默", "節奏", "層次", "單一性", "宇宙性"
  ]

  /** Art and culture. */
  const ArtTerms: seq<string> := [
    "藝術", "創作", "表達", "詮釋", "敘事", "語言", "儀式", "裝置", "表演", "體驗", "探索", "感受", "記憶", "對話", "轉化", "力量",
    "深刻"
  ]

  /** Actions. */
  const ActionTerms: seq<string> := [
    "尋找", "打開", "弱化", "強化", "重新", "創造", "記錄", "促進", "瞭解", "產生", "提出", "攪動", "融入", "放大", "聽見"
  ]

  /** Set phrases. */
  const PhraseTerms: seq<string> := [
    "場域精神", "海盡頭", "星光", "大自然", "大地媽媽", "環保議題", "生物本能", "感官經驗", "心情", "當下", "過程"
  ]

  /** The fixed vocabulary the scan looks for, group by group in its listed order. */
  const Vocabulary: seq<string> :=
    TimeTerms + NatureTerms + SenseTerms + AbstractTerms + ArtTerms + ActionTerms + PhraseTerms

  /** The fixed vocabulary lists no term twice. */
  lemma VocabularyDistinct()
    ensures Distinct(Vocabulary)
  {
    TimeDistinct();
    NatureDistinct();
    TimeNatureApart();
    DistinctJoin(TimeTerms, NatureTerms);
    SenseDistinct();
    SenseNew();
    DistinctJoin(TimeTerms + NatureTerms, SenseTerms);
    AbstractDistinct();
    AbstractNew();
    DistinctJoin(TimeTerms + NatureTerms + SenseTerms, AbstractTerms);
    ArtDistinct();
    ArtNew();
    DistinctJoin(TimeTerms + NatureTerms + SenseTerms + AbstractTerms, ArtTerms);
    ActionDistinct();
    ActionNew();
    DistinctJoin(TimeTerms + NatureTerms + SenseTerms + AbstractTerms + ArtTerms, ActionTerms);
    PhraseDistinct();
    PhraseNew();
    DistinctJoin(TimeTerms + NatureTerms + SenseTerms + AbstractTerms + ArtTerms + ActionTerms, PhraseTerms);
  }

  /** No term of the groups before `SenseTerms` is one of its terms. */
  lemma SenseNew()
    ensures Apart(TimeTerms + NatureTerms, SenseTerms)
  {
    TimeSenseApart();
    NatureSenseApart();
    ApartJoin(TimeTerms, NatureTerms, SenseTerms);
  }

  /** No term of the groups before `AbstractTerms` is one of its terms. */
  lemma AbstractNew()
    ensures Apart(TimeTerms + NatureTerms + SenseTerms, AbstractTerms)
  {
    TimeAbstractApart();
    NatureAbstractApart();
    ApartJoin(TimeTerms, NatureTerms, AbstractTerms);
    SenseAbstractApart();
    ApartJoin(TimeTerms + NatureTerms, SenseTerms, AbstractTerms);
  }

  /** No term of the groups before `ArtTerms` is one of its terms. */
  lemma ArtNew()
    ensures Apart(TimeTerms + NatureTerms + SenseTerms + AbstractTerms, ArtTerms)
  {
    TimeArtApart();
    NatureArtApart();
    ApartJoin(TimeTerms, NatureTerms, ArtTerms);
    SenseArtApart();
    ApartJoin(TimeTerms + NatureTerms, SenseTerms, ArtTerms);
    AbstractArtApart();
    ApartJoin(TimeTerms + NatureTerms + SenseTerms, AbstractTerms, ArtTerms);
  }

  /** No term of the groups before `ActionTerms` is one of its terms. */
  lemma ActionNew()
    ensures Apart(TimeTerms + NatureTerms + SenseTerms + AbstractTerms + ArtTerms, ActionTerms)
  {
    TimeActionApart();
    NatureActionApart();
    ApartJoin(TimeTerms, NatureTerms, ActionTerms);
    SenseActionApart();
    ApartJoin(TimeTerms + NatureTerms, SenseTerms, ActionTerms);
    AbstractActionApart();
    ApartJoin(TimeTerms + NatureTerms + SenseTerms, AbstractTerms, ActionTerms);
    ArtActionApart();
    ApartJoin(TimeTerms + NatureTerms + SenseTerms + AbstractTerms, ArtTerms, ActionTerms);
  }

  /** No term of the groups before `PhraseTerms` is one of its terms. */
  lemma PhraseNew()
    ensures Apart(TimeTerms + NatureTerms + SenseTerms + AbstractTerms + ArtTerms + ActionTerms, PhraseTerms)
  {
    TimePhraseApart();
    NaturePhraseApart();
    ApartJoin(TimeTerms, NatureTerms, PhraseTerms);
    SensePhraseApart();
    ApartJoin(TimeTerms + NatureTerms, SenseTerms, PhraseTerms);
    AbstractPhraseApart();
    ApartJoin(TimeTerms + NatureTerms + SenseTerms, AbstractTerms, PhraseTerms);
    ArtPhraseApart();
    ApartJoin(TimeTerms + NatureTerms + SenseTerms + AbstractTerms, ArtTerms, PhraseTerms);
    ActionPhraseApart();
    ApartJoin(TimeTerms + NatureTerms + SenseTerms + AbstractTerms + ArtTerms, ActionTerms, PhraseTerms);
  }

  lemma TimeDistinct()
    ensures Distinct(TimeTerms)
  {
  }

  lemma NatureDistinct()
    ensures Distinct(NatureTerms)
  {
  }

  lemma SenseDistinct()
    ensures Distinct(SenseTerms)
  {
  }

  lemma AbstractDistinct()
    ensures Distinct(AbstractTerms)
  {
  }

  lemma ArtDistinct()
    ensures Distinct(ArtTerms)
  {
  }

  lemma ActionDistinct()
    ensures Distinct(ActionTerms)
  {
  }

  lemma PhraseDistinct()
    ensures Distinct(PhraseTerms)
  {
  }

  lemma TimeNatureApart()
    ensures Apart(TimeTerms, NatureTerms)
  {
  }

  lemma TimeSenseApart()
    ensures Apart(TimeTerms, SenseTerms)
  {
  }

  lemma NatureSenseApart()
    ensures Apart(NatureTerms, SenseTerms)
  {
  }

  lemma TimeAbstractApart()
    ensures Apart(TimeTerms, AbstractTerms)
  {
  }

  lemma NatureAbstractApart()
    ensures Apart(NatureTerms, AbstractTerms)
  {
  }

  lemma SenseAbstractApart()
    ensures Apart(SenseTerms, AbstractTerms)
  {
  }

  lemma TimeArtApart()
    ensures Apart(TimeTerms, ArtTerms)
  {
  }

  lemma NatureArtApart()
    ensures Apart(NatureTerms, ArtTerms)
  {
  }

  lemma SenseArtApart()
    ensures Apart(SenseTerms, ArtTerms)
  {
  }

  lemma AbstractArtApart()
    ensures Apart(AbstractTerms, ArtTerms)
  {
  }

  lemma TimeActionApart()
    ensures Apart(TimeTerms, ActionTerms)
  {
  }

  lemma NatureActionApart()
    ensures Apart(NatureTerms, ActionTerms)
  {
  }

  lemma SenseActionApart()
    ensures Apart(SenseTerms, ActionTerms)
  {
  }

  lemma AbstractActionApart()
    ensures Apart(AbstractTerms, ActionTerms)
  {
  }

  lemma ArtActionApart()
    ensures Apart(ArtTerms, ActionTerms)
  {
  }

  lemma TimePhraseApart()
    ensures Apart(TimeTerms, PhraseTerms)
  {
  }

  lemma NaturePhraseApart()
    ensures Apart(NatureTerms, PhraseTerms)
  {
  }

  lemma SensePhraseApart()
    ensures Apart(SenseTerms, PhraseTerms)
  {
  }

  lemma AbstractPhraseApart()
    ensures Apart(AbstractTerms, PhraseTerms)
  {
  }

  lemma ArtPhraseApart()
    ensures Apart(ArtTerms, PhraseTerms)
  {
  }

  lemma ActionPhraseApart()
    ensures Apart(ActionTerms, PhraseTerms)
  {
  }
}
