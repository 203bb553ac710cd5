/**
  preprocess_stanza.py: SQuAD-style topics are flattened into one simple
  record per question, and each record's context, question and answer are
  tagged by the stanza pipeline (an opaque function `nlp` here) into
  space-joined token, NER and POS lines. The context tagging goes through a
  single-entry cache.
*/
module PreprocessStanza {
  import opened Wrappers
  import opened Seqs
  import opened MemoCache

  // ---------------------------------------------------------------------------
  // Input and output records
  // ---------------------------------------------------------------------------

  /** One element of `answers` / `plausible_answers`; a missing key is None. */
  datatype AnswerEntry = AnswerEntry(text: Option<string>, answerStart: Option<int>)

  /** A question; a missing `answers` or `plausible_answers` key is None. */
  datatype Qa = Qa(question: string, id: string, isImpossible: bool,
                   answers: Option<seq<AnswerEntry>>, plausibleAnswers: Option<seq<AnswerEntry>>)

  datatype Paragraph = Paragraph(context: string, qas: seq<Qa>)

  datatype Topic = Topic(title: string, paragraphs: seq<Paragraph>)

  /** The simple format: one record per question. */
  datatype SimpleRecord = SimpleRecord(title: string, context: string, question: string,
                                       answer: string, answerStart: int, id: string)

  /** The exceptions that escape this script. */
  datatype PreprocessError =
    | UnboundLocalError(name: string)
    | NotEnoughValuesToUnpack(expected: nat, got: nat)

  // ---------------------------------------------------------------------------
  // convert2simpleFormat
  // ---------------------------------------------------------------------------

  /** A question together with the title of its topic and the context of its paragraph. */
  datatype QaSite = QaSite(title: string, context: string, qa: Qa)

  function QaSites(title: string, context: string, qas: seq<Qa>): (r: seq<QaSite>)
    ensures |r| == |qas|
    ensures forall k :: 0 <= k < |qas| ==> r[k] == QaSite(title, context, qas[k])
  {
    if qas == [] then [] else QaSites(title, context, qas[..|qas| - 1]) + [QaSite(title, context, qas[|qas| - 1])]
  }

  function ParagraphSites(title: string, ps: seq<Paragraph>): seq<QaSite> {
    if ps == [] then []
    else
      var n := |ps| - 1;
      ParagraphSites(title, ps[..n]) + QaSites(title, ps[n].context, ps[n].qas)
  }

  /** The questions in the order the three nested loops visit them. */
  function Sites(data: seq<Topic>): seq<QaSite> {
    if data == [] then []
    else
      var n := |data| - 1;
      Sites(data[..n]) + ParagraphSites(data[n].title, data[n].paragraphs)
  }

  /** The values of the locals `answer` and `answer_start`; None while unbound. */
  datatype Bindings = Bindings(answer: Option<string>, answerStart: Option<int>)

  const UNBOUND: Bindings := Bindings(None, None)

  /** `plausible_answers` for an unanswerable question, `answers` otherwise. */
  function CandidateAnswers(qa: Qa): Option<seq<AnswerEntry>> {
    if qa.isImpossible then qa.plausibleAnswers else qa.answers
  }

  /**
    What the try block's first assignment stores in `answer`: the `text` of
    the first candidate, or None when the lookup raises (missing list, empty
    list, missing key) and the handler swallows it.
  */
  function TriedText(qa: Qa): Option<string> {
    match CandidateAnswers(qa)
    case None => None
    case Some(es) => if es == [] then None else es[0].text
  }

  /** What the second assignment stores in `answer_start`; it is reached only when the first succeeded. */
  function TriedStart(qa: Qa): Option<int> {
    if TriedText(qa).None? then None else CandidateAnswers(qa).value[0].answerStart
  }

  /** One try block: each assignment that completes rebinds its local; the others keep their old value. */
  function Bind(b: Bindings, qa: Qa): Bindings {
    Bindings(OrElse(TriedText(qa), b.answer), OrElse(TriedStart(qa), b.answerStart))
  }

  /** The bindings after the try blocks of all the given questions, starting unbound. */
  function BoundAfter(sites: seq<QaSite>): Bindings {
    if sites == [] then UNBOUND else Bind(BoundAfter(sites[..|sites| - 1]), sites[|sites| - 1].qa)
  }

  /** The append of lines 86-95, which reads both locals and raises if either is still unbound. */
  function MakeRecord(s: QaSite, b: Bindings): Result<SimpleRecord, PreprocessError> {
    if b.answer.None? then Failure(UnboundLocalError("answer"))
    else if b.answerStart.None? then Failure(UnboundLocalError("answer_start"))
    else Success(SimpleRecord(s.title, s.context, s.qa.question, b.answer.value, b.answerStart.value, s.qa.id))
  }

  /** The records for the given questions, or the first exception. */
  function Resolve(sites: seq<QaSite>): Result<seq<SimpleRecord>, PreprocessError> {
    if sites == [] then Success([])
    else
      var n := |sites| - 1;
      match Resolve(sites[..n])
      case Failure(e) => Failure(e)
      case Success(rs) =>
        match MakeRecord(sites[n], BoundAfter(sites))
        case Failure(e) => Failure(e)
        case Success(r) => Success(rs + [r])
  }

  /** convert2simpleFormat as a value. */
  function Convert(data: seq<Topic>): (r: Result<seq<SimpleRecord>, PreprocessError>) {
    Resolve(Sites(data))
  }

  lemma ResolveSnoc(sites: seq<QaSite>, s: QaSite)
    ensures Resolve(sites + [s]) ==
      match Resolve(sites)
      case Failure(e) => Failure(e)
      case Success(rs) =>
        match MakeRecord(s, BoundAfter(sites + [s]))
        case Failure(e) => Failure(e)
        case Success(r) => Success(rs + [r])
  {
    assert (sites + [s])[..|sites|] == sites;
  }

  lemma BoundAfterSnoc(sites: seq<QaSite>, s: QaSite)
    ensures BoundAfter(sites + [s]) == Bind(BoundAfter(sites), s.qa)
  {
    assert (sites + [s])[..|sites|] == sites;
  }

  /** Once a prefix raises, so does the whole run, with the same exception. */
  lemma {:induction false} ResolveSticky(a: seq<QaSite>, b: seq<QaSite>)
    requires Resolve(a).Failure?
    ensures Resolve(a + b) == Resolve(a)
    decreases |b|
  {
    if b == [] {
      assert a + b == a;
    } else {
      var n := |b| - 1;
      ResolveSticky(a, b[..n]);
      assert a + b == (a + b[..n]) + [b[n]];
      ResolveSnoc(a + b[..n], b[n]);
    }
  }

  /** The outcome of the append for question k, with the locals as the try blocks up to k leave them. */
  function RecordAt(sites: seq<QaSite>, k: nat): Result<SimpleRecord, PreprocessError>
    requires k < |sites|
  {
    MakeRecord(sites[k], BoundAfter(sites[..k + 1]))
  }

  lemma RecordAtPrefix(sites: seq<QaSite>, n: nat, k: nat)
    requires k < n <= |sites|
    ensures RecordAt(sites[..n], k) == RecordAt(sites, k)
  {
    assert sites[..n][..k + 1] == sites[..k + 1];
  }

  /**
    The conversion succeeds exactly when every question finds both locals
    bound, and otherwise raises the exception of the first question that
    does not.
  */
  lemma {:induction false} ResolveOutcome(sites: seq<QaSite>)
    ensures Resolve(sites).Success? <==> forall k :: 0 <= k < |sites| ==> RecordAt(sites, k).Success?
    ensures Resolve(sites).Failure? ==>
      exists k :: 0 <= k < |sites| && RecordAt(sites, k) == Failure(Resolve(sites).error) &&
        forall j :: 0 <= j < k ==> RecordAt(sites, j).Success?
    decreases |sites|
  {
    if sites != [] {
      var n := |sites| - 1;
      ResolveOutcome(sites[..n]);
      forall k | 0 <= k < n ensures RecordAt(sites[..n], k) == RecordAt(sites, k) {
        RecordAtPrefix(sites, n, k);
      }
      assert sites[..n + 1] == sites;
      if Resolve(sites).Failure? && Resolve(sites[..n]).Success? {
        assert RecordAt(sites, n) == Failure(Resolve(sites).error);
      }
    }
  }

  /**
    A successful conversion yields one record per question, in order, each
    the one the append for that question builds: its question's title,
    context, question and id with the locals' values at that point.
  */
  lemma {:induction false} ResolveRecords(sites: seq<QaSite>)
    requires Resolve(sites).Success?
    ensures |Resolve(sites).value| == |sites|
    ensures forall k :: 0 <= k < |sites| ==> Success(Resolve(sites).value[k]) == RecordAt(sites, k)
    decreases |sites|
  {
    if sites != [] {
      var n := |sites| - 1;
      ResolveRecords(sites[..n]);
      forall k | 0 <= k < n ensures RecordAt(sites[..n], k) == RecordAt(sites, k) {
        RecordAtPrefix(sites, n, k);
      }
      assert sites[..n + 1] == sites;
    }
  }

  /** What a record built at question k holds. */
  lemma RecordContents(sites: seq<QaSite>, k: nat)
    requires k < |sites| && RecordAt(sites, k).Success?
    ensures var r, b := RecordAt(sites, k).value, BoundAfter(sites[..k + 1]);
      && r.title == sites[k].title && r.context == sites[k].context
      && r.question == sites[k].qa.question && r.id == sites[k].qa.id
      && b.answer == Some(r.answer) && b.answerStart == Some(r.answerStart)
  {
  }

  /**
    `answer` holds a after a run exactly when some question's first
    assignment stored a and no later question's first assignment completed:
    a question whose answer lookup raises carries the previous value.
  */
  lemma {:induction false} LatestAnswer(sites: seq<QaSite>, a: string)
    ensures BoundAfter(sites).answer == Some(a) <==>
      exists j :: 0 <= j < |sites| && TriedText(sites[j].qa) == Some(a) &&
        forall i :: j < i < |sites| ==> TriedText(sites[i].qa).None?
    decreases |sites|
  {
    if sites != [] {
      var n := |sites| - 1;
      var pre := sites[..n];
      LatestAnswer(pre, a);
      assert BoundAfter(sites).answer == OrElse(TriedText(sites[n].qa), BoundAfter(pre).answer);
      assert forall k :: 0 <= k < n ==> pre[k] == sites[k];
      if TriedText(sites[n].qa).None? {
        if BoundAfter(sites).answer == Some(a) {
          var j :| 0 <= j < n && TriedText(pre[j].qa) == Some(a) && forall i :: j < i < n ==> TriedText(pre[i].qa).None?;
          assert TriedText(sites[j].qa) == Some(a);
        }
      } else {
        if exists j :: 0 <= j < |sites| && TriedText(sites[j].qa) == Some(a) &&
             forall i :: j < i < |sites| ==> TriedText(sites[i].qa).None? {
          var j :| 0 <= j < |sites| && TriedText(sites[j].qa) == Some(a) &&
            forall i :: j < i < |sites| ==> TriedText(sites[i].qa).None?;
          assert j == n;
        }
      }
    }
  }

  /** The same for `answer_start`, whose assignment completes only after the text lookup did. */
  lemma {:induction false} LatestAnswerStart(sites: seq<QaSite>, s: int)
    ensures BoundAfter(sites).answerStart == Some(s) <==>
      exists j :: 0 <= j < |sites| && TriedStart(sites[j].qa) == Some(s) &&
        forall i :: j < i < |sites| ==> TriedStart(sites[i].qa).None?
    decreases |sites|
  {
    if sites != [] {
      var n := |sites| - 1;
      var pre := sites[..n];
      LatestAnswerStart(pre, s);
      assert BoundAfter(sites).answerStart == OrElse(TriedStart(sites[n].qa), BoundAfter(pre).answerStart);
      assert forall k :: 0 <= k < n ==> pre[k] == sites[k];
      if TriedStart(sites[n].qa).None? {
        if BoundAfter(sites).answerStart == Some(s) {
          var j :| 0 <= j < n && TriedStart(pre[j].qa) == Some(s) && forall i :: j < i < n ==> TriedStart(pre[i].qa).None?;
          assert TriedStart(sites[j].qa) == Some(s);
        }
      } else {
        if exists j :: 0 <= j < |sites| && TriedStart(sites[j].qa) == Some(s) &&
             forall i :: j < i < |sites| ==> TriedStart(sites[i].qa).None? {
          var j :| 0 <= j < |sites| && TriedStart(sites[j].qa) == Some(s) &&
            forall i :: j < i < |sites| ==> TriedStart(sites[i].qa).None?;
          assert j == n;
        }
      }
    }
  }

  /**
    A question whose first candidate has both keys rebinds both locals to
    it; the candidate list is `plausible_answers` exactly when the question
    is marked impossible, and only its first element is read.
  */
  lemma FirstCandidateUsed(b: Bindings, qa: Qa, e: AnswerEntry, rest: seq<AnswerEntry>, t: string, s: int)
    requires CandidateAnswers(qa) == Some([e] + rest) && e.text == Some(t) && e.answerStart == Some(s)
    ensures Bind(b, qa) == Bindings(Some(t), Some(s))
    ensures qa.isImpossible ==> qa.plausibleAnswers == Some([e] + rest)
    ensures !qa.isImpossible ==> qa.answers == Some([e] + rest)
  {
  }

  /** s is a question of paragraph para, placed under the given title. */
  predicate InParagraph(s: QaSite, title: string, para: Paragraph) {
    s.title == title && s.context == para.context && s.qa in para.qas
  }

  /** The loops visit exactly the questions of the paragraphs of the topics, each with its own title and context. */
  lemma {:induction false} SitesMember(data: seq<Topic>, s: QaSite)
    ensures s in Sites(data) <==>
      exists t, p :: 0 <= t < |data| && 0 <= p < |data[t].paragraphs| && InParagraph(s, data[t].title, data[t].paragraphs[p])
    decreases |data|
  {
    if data != [] {
      var n := |data| - 1;
      var pre, last := data[..n], data[n];
      SitesMember(pre, s);
      ParagraphSitesMember(last.title, last.paragraphs, s);
      assert Sites(data) == Sites(pre) + ParagraphSites(last.title, last.paragraphs);
      if s in Sites(pre) {
        var t, p :| 0 <= t < n && 0 <= p < |pre[t].paragraphs| && InParagraph(s, pre[t].title, pre[t].paragraphs[p]);
        assert pre[t] == data[t];
      }
      if exists t, p :: 0 <= t < |data| && 0 <= p < |data[t].paragraphs| && InParagraph(s, data[t].title, data[t].paragraphs[p]) {
        var t, p :| 0 <= t < |data| && 0 <= p < |data[t].paragraphs| && InParagraph(s, data[t].title, data[t].paragraphs[p]);
        if t < n {
          assert pre[t] == data[t];
        }
      }
    }
  }

  lemma {:induction false} ParagraphSitesMember(title: string, ps: seq<Paragraph>, s: QaSite)
    ensures s in ParagraphSites(title, ps) <==> exists p :: 0 <= p < |ps| && InParagraph(s, title, ps[p])
    decreases |ps|
  {
    if ps != [] {
      var n := |ps| - 1;
      var pre := ps[..n];
      ParagraphSitesMember(title, pre, s);
      assert ParagraphSites(title, ps) == ParagraphSites(title, pre) + QaSites(title, ps[n].context, ps[n].qas);
      QaSitesMember(title, ps[n], s);
      if s in ParagraphSites(title, pre) {
        var p :| 0 <= p < |pre| && InParagraph(s, title, pre[p]);
        assert pre[p] == ps[p];
      }
      if exists p :: 0 <= p < |ps| && InParagraph(s, title, ps[p]) {
        var p :| 0 <= p < |ps| && InParagraph(s, title, ps[p]);
        if p < n {
          assert pre[p] == ps[p];
        }
      }
    }
  }

  lemma QaSitesMember(title: string, para: Paragraph, s: QaSite)
    ensures s in QaSites(title, para.context, para.qas) <==> InParagraph(s, title, para)
  {
    var sites := QaSites(title, para.context, para.qas);
    if s in sites {
      var q :| 0 <= q < |sites| && sites[q] == s;
      assert s.qa == para.qas[q];
    }
    if InParagraph(s, title, para) {
      var q :| 0 <= q < |para.qas| && para.qas[q] == s.qa;
      assert sites[q] == s;
    }
  }

  /** The record of an unanswerable question whose only data is in `plausible_answers`. */
  lemma PlausibleAnswerExtracted(title: string, context: string, question: string, id: string, t: string, s: int)
    ensures Convert([Topic(title, [Paragraph(context, [Qa(question, id, true, None, Some([AnswerEntry(Some(t), Some(s))]))])])])
      == Success([SimpleRecord(title, context, question, t, s, id)])
  {
    var e := AnswerEntry(Some(t), Some(s));
    var qa := Qa(question, id, true, None, Some([e]));
    var site := QaSite(title, context, qa);
    var rec := SimpleRecord(title, context, question, t, s, id);
    SingleSite(title, context, qa);
    assert [e] + [] == [e];
    FirstCandidateUsed(UNBOUND, qa, e, [], t, s);
    ResolveSnoc([], site);
    BoundAfterSnoc([], site);
    assert [] + [site] == [site];
    assert [] + [rec] == [rec];
    assert Resolve([site]) == Success([rec]);
  }

  lemma SingleSite(title: string, context: string, qa: Qa)
    ensures Sites([Topic(title, [Paragraph(context, [qa])])]) == [QaSite(title, context, qa)]
  {
    var data := [Topic(title, [Paragraph(context, [qa])])];
    assert data[..0] == [];
    var ps := [Paragraph(context, [qa])];
    assert ps[..0] == [];
    assert ParagraphSites(title, ps) == QaSites(title, context, [qa]);
  }

  /** When the very first question finds no answer text, the conversion raises before any record exists. */
  lemma FirstQuestionUnanswered(data: seq<Topic>)
    requires Sites(data) != [] && TriedText(Sites(data)[0].qa).None?
    ensures Convert(data) == Failure(UnboundLocalError("answer"))
  {
    var sites := Sites(data);
    assert sites[..1] == [] + [sites[0]];
    ResolveSnoc([], sites[0]);
    BoundAfterSnoc([], sites[0]);
    ResolveSticky(sites[..1], sites[1..]);
    assert sites[..1] + sites[1..] == sites;
  }

  /** Lines 74-85: the try blocks, where a failed lookup leaves the locals as they were. */
  method TryAnswer(qa: Qa, answer: Option<string>, answerStart: Option<int>)
    returns (answer': Option<string>, answerStart': Option<int>)
    ensures Bindings(answer', answerStart') == Bind(Bindings(answer, answerStart), qa)
  {
    answer', answerStart' := answer, answerStart;
    var candidates := if qa.isImpossible then qa.plausibleAnswers else qa.answers;
    if candidates.Some? && candidates.value != [] {
      var first := candidates.value[0];
      if first.text.Some? {
        answer' := first.text;
        if first.answerStart.Some? {
          answerStart' := first.answerStart;
        }
      }
    }
  }

  /** The innermost loop (lines 71-95) over one paragraph's questions. */
  method ConvertQas(ghost done: seq<QaSite>, title: string, context: string, qas: seq<Qa>,
                    records: seq<SimpleRecord>, answer: Option<string>, answerStart: Option<int>)
    returns (r: Result<seq<SimpleRecord>, PreprocessError>, answer': Option<string>, answerStart': Option<int>)
    requires Resolve(done) == Success(records) && BoundAfter(done) == Bindings(answer, answerStart)
    ensures r == Resolve(done + QaSites(title, context, qas))
    ensures r.Success? ==> BoundAfter(done + QaSites(title, context, qas)) == Bindings(answer', answerStart')
  {
    var simpleFormatData := records;
    answer', answerStart' := answer, answerStart;
    ghost var all := QaSites(title, context, qas);
    assert done + all[..0] == done;
    var q := 0;
    while q < |qas|
      invariant 0 <= q <= |qas|
      invariant Resolve(done + all[..q]) == Success(simpleFormatData)
      invariant BoundAfter(done + all[..q]) == Bindings(answer', answerStart')
    {
      var qa := qas[q];
      ghost var visited := done + all[..q];
      answer', answerStart' := TryAnswer(qa, answer', answerStart');
      var site := QaSite(title, context, qa);
      SiteStep(done, all, q);
      BoundAfterSnoc(visited, site);
      ResolveSnoc(visited, site);
      if answer'.None? {
        ResolveSticky(done + all[..q + 1], all[q + 1..]);
        SitesTail(done, all, q);
        return Failure(UnboundLocalError("answer")), answer', answerStart';
      }
      if answerStart'.None? {
        ResolveSticky(done + all[..q + 1], all[q + 1..]);
        SitesTail(done, all, q);
        return Failure(UnboundLocalError("answer_start")), answer', answerStart';
      }
      simpleFormatData := simpleFormatData + [SimpleRecord(title, context, qa.question, answer'.value, answerStart'.value, qa.id)];
      q := q + 1;
    }
    assert all[..q] == all;
    return Success(simpleFormatData), answer', answerStart';
  }

  lemma SiteStep(done: seq<QaSite>, all: seq<QaSite>, q: nat)
    requires q < |all|
    ensures done + all[..q + 1] == (done + all[..q]) + [all[q]]
  {
    assert all[..q + 1] == all[..q] + [all[q]];
  }

  /** Splitting a run after its element at index q. */
  lemma SitesTail(done: seq<QaSite>, xs: seq<QaSite>, q: nat)
    requires q < |xs|
    ensures (done + xs[..q + 1]) + xs[q + 1..] == done + xs
  {
    assert xs[..q + 1] + xs[q + 1..] == xs;
  }

  /** The paragraph loop (lines 69-95) of one topic. */
  method ConvertParagraphs(ghost done: seq<QaSite>, title: string, ps: seq<Paragraph>,
                           records: seq<SimpleRecord>, answer: Option<string>, answerStart: Option<int>)
    returns (r: Result<seq<SimpleRecord>, PreprocessError>, answer': Option<string>, answerStart': Option<int>)
    requires Resolve(done) == Success(records) && BoundAfter(done) == Bindings(answer, answerStart)
    ensures r == Resolve(done + ParagraphSites(title, ps))
    ensures r.Success? ==> BoundAfter(done + ParagraphSites(title, ps)) == Bindings(answer', answerStart')
  {
    var simpleFormatData := records;
    answer', answerStart' := answer, answerStart;
    assert done + ParagraphSites(title, ps[..0]) == done;
    var p := 0;
    while p < |ps|
      invariant 0 <= p <= |ps|
      invariant Resolve(done + ParagraphSites(title, ps[..p])) == Success(simpleFormatData)
      invariant BoundAfter(done + ParagraphSites(title, ps[..p])) == Bindings(answer', answerStart')
    {
      var para := ps[p];
      ghost var visited := done + ParagraphSites(title, ps[..p]);
      ParagraphStep(done, title, ps, p);
      var r0;
      r0, answer', answerStart' := ConvertQas(visited, title, para.context, para.qas, simpleFormatData, answer', answerStart');
      if r0.Failure? {
        ParagraphsSticky(done, title, ps, p + 1);
        return r0, answer', answerStart';
      }
      simpleFormatData := r0.value;
      p := p + 1;
    }
    assert ps[..p] == ps;
    return Success(simpleFormatData), answer', answerStart';
  }

  lemma ParagraphStep(done: seq<QaSite>, title: string, ps: seq<Paragraph>, p: nat)
    requires p < |ps|
    ensures done + ParagraphSites(title, ps[..p + 1]) ==
      (done + ParagraphSites(title, ps[..p])) + QaSites(title, ps[p].context, ps[p].qas)
  {
    assert ps[..p + 1][..p] == ps[..p] && ps[..p + 1][p] == ps[p];
  }

  /** An exception raised in the first p paragraphs' questions is the exception of the whole topic. */
  lemma ParagraphsSticky(done: seq<QaSite>, title: string, ps: seq<Paragraph>, p: nat)
    requires p <= |ps|
    requires Resolve(done + ParagraphSites(title, ps[..p])).Failure?
    ensures Resolve(done + ParagraphSites(title, ps)) == Resolve(done + ParagraphSites(title, ps[..p]))
  {
    var pre := ParagraphSites(title, ps[..p]);
    var all := ParagraphSites(title, ps);
    ParagraphSitesPrefix(title, ps, p);
    assert pre + all[|pre|..] == all;
    ResolveSticky(done + pre, all[|pre|..]);
    assert (done + pre) + all[|pre|..] == done + all;
  }

  /** The sites of the first p paragraphs are a prefix of the sites of all of them. */
  lemma {:induction false} ParagraphSitesPrefix(title: string, ps: seq<Paragraph>, p: nat)
    requires p <= |ps|
    ensures ParagraphSites(title, ps[..p]) <= ParagraphSites(title, ps)
    decreases |ps| - p
  {
    if p < |ps| {
      ParagraphSitesPrefix(title, ps, p + 1);
      assert ps[..p + 1][..p] == ps[..p];
    } else {
      assert ps[..p] == ps;
    }
  }

  /** The sites of the first t + 1 topics are a prefix of the sites of all of them. */
  lemma {:induction false} SitesPrefix(data: seq<Topic>, t: nat)
    requires t <= |data|
    ensures Sites(data[..t]) <= Sites(data)
    decreases |data| - t
  {
    if t < |data| {
      SitesPrefix(data, t + 1);
      assert data[..t + 1][..t] == data[..t];
    } else {
      assert data[..t] == data;
    }
  }

  lemma TopicStep(data: seq<Topic>, t: nat)
    requires t < |data|
    ensures Sites(data[..t + 1]) == Sites(data[..t]) + ParagraphSites(data[t].title, data[t].paragraphs)
  {
    assert data[..t + 1][..t] == data[..t] && data[..t + 1][t] == data[t];
  }

  /** An exception raised in the first t topics' questions is the exception of the whole conversion. */
  lemma TopicsSticky(data: seq<Topic>, t: nat)
    requires t <= |data|
    requires Resolve(Sites(data[..t])).Failure?
    ensures Convert(data) == Resolve(Sites(data[..t]))
  {
    SitesPrefix(data, t);
    var pre := Sites(data[..t]);
    ResolveSticky(pre, Sites(data)[|pre|..]);
    assert pre + Sites(data)[|pre|..] == Sites(data);
  }

  /** convert2simpleFormat (lines 65-96): the topic loop around the paragraph and question loops. */
  method Convert2SimpleFormat(data: seq<Topic>) returns (r: Result<seq<SimpleRecord>, PreprocessError>)
    ensures r == Convert(data)
  {
    var simpleFormatData: seq<SimpleRecord> := [];
    var answer: Option<string> := None;
    var answerStart: Option<int> := None;
    var t := 0;
    while t < |data|
      invariant 0 <= t <= |data|
      invariant Resolve(Sites(data[..t])) == Success(simpleFormatData)
      invariant BoundAfter(Sites(data[..t])) == Bindings(answer, answerStart)
    {
      var topic := data[t];
      TopicStep(data, t);
      var r0;
      r0, answer, answerStart := ConvertParagraphs(Sites(data[..t]), topic.title, topic.paragraphs,
                                                   simpleFormatData, answer, answerStart);
      if r0.Failure? {
        TopicsSticky(data, t + 1);
        return r0;
      }
      simpleFormatData := r0.value;
      t := t + 1;
    }
    assert data[..t] == data;
    return Success(simpleFormatData);
  }

  // ---------------------------------------------------------------------------
  // getAnnotationInfo
  // ---------------------------------------------------------------------------

  /** One token of the stanza output's `to_dict()`: its `text`, `ner` and `upos`. */
  datatype TaggedToken = TaggedToken(text: string, ner: string, upos: string)

  /** The stanza output: sentences of tokens. */
  type Tagged = seq<seq<TaggedToken>>

  function TaggedText(t: TaggedToken): string { t.text }
  function TaggedNer(t: TaggedToken): string { t.ner }
  function TaggedUpos(t: TaggedToken): string { t.upos }

  /** The space-joined texts of all tokens, sentence after sentence. */
  function TokenLine(t: Tagged): string { JoinSpace(Map(TaggedText, Flatten(t))) }
  function NerLine(t: Tagged): string { JoinSpace(Map(TaggedNer, Flatten(t))) }
  function PosLine(t: Tagged): string { JoinSpace(Map(TaggedUpos, Flatten(t))) }

  /** The eight lists getAnnotationInfo returns, in its order. */
  datatype AnnotationInfo = AnnotationInfo(
    ids: seq<string>,
    contextToks: seq<string>,
    contextNers: seq<string>,
    contextPoss: seq<string>,
    answerStartAndEndPositions: seq<string>,
    answerStartCharIndices: seq<int>,
    questionToks: seq<string>,
    answerToks: seq<string>)

  /** One instance's entry in each list but the always-empty one. */
  datatype Entry = Entry(
    id: string,
    contextTok: string,
    contextNer: string,
    contextPos: string,
    answerStartCharIndex: int,
    questionTok: string,
    answerTok: string)

  /** Instance r's entry, from the tagger's answers for its question, its answer and its context. */
  function EntryOf(r: SimpleRecord, question: Tagged, answer: Tagged, context: Tagged): Entry {
    Entry(r.id, TokenLine(context), NerLine(context), PosLine(context), r.answerStart, TokenLine(question), TokenLine(answer))
  }

  /** Appends one instance's entry to each list. */
  function AddInstance(info: AnnotationInfo, e: Entry): AnnotationInfo {
    AnnotationInfo(
      info.ids + [e.id],
      info.contextToks + [e.contextTok],
      info.contextNers + [e.contextNer],
      info.contextPoss + [e.contextPos],
      info.answerStartAndEndPositions,
      info.answerStartCharIndices + [e.answerStartCharIndex],
      info.questionToks + [e.questionTok],
      info.answerToks + [e.answerTok])
  }

  const NO_ANNOTATIONS: AnnotationInfo := AnnotationInfo([], [], [], [], [], [], [], [])

  /** The eight lists after appending the entries of es in order. */
  function Collect(es: seq<Entry>): AnnotationInfo {
    if es == [] then NO_ANNOTATIONS else AddInstance(Collect(es[..|es| - 1]), es[|es| - 1])
  }

  /** Every instance's entry, with each of its three texts tagged by `nlp`. */
  function TaggedEntries(nlp: string -> Tagged, data: seq<SimpleRecord>): (r: seq<Entry>)
    ensures |r| == |data|
    ensures forall k :: 0 <= k < |data| ==>
      r[k] == EntryOf(data[k], nlp(data[k].question), nlp(data[k].answer), nlp(data[k].context))
  {
    if data == [] then []
    else
      var n := |data| - 1;
      var r := data[n];
      TaggedEntries(nlp, data[..n]) + [EntryOf(r, nlp(r.question), nlp(r.answer), nlp(r.context))]
  }

  /** getAnnotationInfo as a value, with every text tagged by `nlp`. */
  function Annotations(nlp: string -> Tagged, data: seq<SimpleRecord>): (info: AnnotationInfo) {
    Collect(TaggedEntries(nlp, data))
  }

  /** Every list but one gains exactly one entry per instance; the list of answer token positions stays empty. */
  lemma {:induction false} CollectLengths(es: seq<Entry>)
    ensures var info := Collect(es);
      && |info.ids| == |es| && |info.contextToks| == |es| && |info.contextNers| == |es|
      && |info.contextPoss| == |es| && |info.answerStartCharIndices| == |es|
      && |info.questionToks| == |es| && |info.answerToks| == |es|
      && info.answerStartAndEndPositions == []
    decreases |es|
  {
    if es != [] {
      CollectLengths(es[..|es| - 1]);
    }
  }

  /** Entry k of every list is the matching field of the k-th appended entry. */
  lemma {:induction false} CollectAt(es: seq<Entry>, k: nat)
    requires k < |es|
    ensures var info := Collect(es);
      && |info.ids| == |es| && |info.contextToks| == |es| && |info.contextNers| == |es|
      && |info.contextPoss| == |es| && |info.answerStartCharIndices| == |es|
      && |info.questionToks| == |es| && |info.answerToks| == |es|
      && info.ids[k] == es[k].id && info.contextToks[k] == es[k].contextTok
      && info.contextNers[k] == es[k].contextNer && info.contextPoss[k] == es[k].contextPos
      && info.answerStartCharIndices[k] == es[k].answerStartCharIndex
      && info.questionToks[k] == es[k].questionTok && info.answerToks[k] == es[k].answerTok
    decreases |es|
  {
    var n := |es| - 1;
    CollectLengths(es[..n]);
    if k < n {
      assert es[..n][k] == es[k];
      CollectAt(es[..n], k);
    }
  }

  /** Every list but one has one entry per instance; the list of answer token positions stays empty. */
  lemma AnnotationsLengths(nlp: string -> Tagged, data: seq<SimpleRecord>)
    ensures var info := Annotations(nlp, data);
      && |info.ids| == |data| && |info.contextToks| == |data| && |info.contextNers| == |data|
      && |info.contextPoss| == |data| && |info.answerStartCharIndices| == |data|
      && |info.questionToks| == |data| && |info.answerToks| == |data|
      && info.answerStartAndEndPositions == []
  {
    CollectLengths(TaggedEntries(nlp, data));
  }

  /**
    Entry k of the id and context lists describes instance k: its id and its
    context's token, NER and POS lines, so the four lists stay aligned.
  */
  lemma ContextColumnsAt(nlp: string -> Tagged, data: seq<SimpleRecord>, k: nat)
    requires k < |data|
    ensures var info := Annotations(nlp, data);
      var c := nlp(data[k].context);
      && k < |info.ids| && info.ids[k] == data[k].id
      && k < |info.contextToks| && info.contextToks[k] == TokenLine(c)
      && k < |info.contextNers| && info.contextNers[k] == NerLine(c)
      && k < |info.contextPoss| && info.contextPoss[k] == PosLine(c)
  {
    CollectAt(TaggedEntries(nlp, data), k);
  }

  /** Entry k of the other lists: instance k's answer offset and its question's and answer's token lines. */
  lemma QuestionColumnsAt(nlp: string -> Tagged, data: seq<SimpleRecord>, k: nat)
    requires k < |data|
    ensures var info := Annotations(nlp, data);
      && k < |info.answerStartCharIndices| && info.answerStartCharIndices[k] == data[k].answerStart
      && k < |info.questionToks| && info.questionToks[k] == TokenLine(nlp(data[k].question))
      && k < |info.answerToks| && info.answerToks[k] == TokenLine(nlp(data[k].answer))
  {
    CollectAt(TaggedEntries(nlp, data), k);
  }

  /** Lines 127-130 and 133-136: the texts of all tokens, sentence after sentence. */
  method SentenceTokenTexts(sents: Tagged) returns (toksSent: seq<string>)
    ensures toksSent == Map(TaggedText, Flatten(sents))
  {
    toksSent := [];
    var s := 0;
    while s < |sents|
      invariant 0 <= s <= |sents|
      invariant toksSent == Map(TaggedText, Flatten(sents[..s]))
    {
      toksSent := AppendTokenTexts(Flatten(sents[..s]), sents[s], toksSent);
      FlattenPrefix(sents, s);
      s := s + 1;
    }
    assert sents[..s] == sents;
  }

  /** The inner loop over one sentence's tokens, after the tokens `seen` of the earlier ones. */
  method AppendTokenTexts(ghost seen: seq<TaggedToken>, sentence: seq<TaggedToken>, toksSent: seq<string>)
    returns (toksSent': seq<string>)
    requires toksSent == Map(TaggedText, seen)
    ensures toksSent' == Map(TaggedText, seen + sentence)
  {
    toksSent' := toksSent;
    assert seen + sentence[..0] == seen;
    var k := 0;
    while k < |sentence|
      invariant 0 <= k <= |sentence|
      invariant toksSent' == Map(TaggedText, seen + sentence[..k])
    {
      assert seen + sentence[..k + 1] == (seen + sentence[..k]) + [sentence[k]];
      MapSnoc(TaggedText, seen + sentence[..k], sentence[k]);
      toksSent' := toksSent' + [sentence[k].text];
      k := k + 1;
    }
    assert sentence[..k] == sentence;
  }

  /**
    Lines 140-147: the token, NER and POS columns of the context, one entry
    per token in each, so entry k of all three describes the same token.
  */
  method ContextColumns(sents: Tagged) returns (toksSent: seq<string>, nersSent: seq<string>, possSent: seq<string>)
    ensures toksSent == Map(TaggedText, Flatten(sents))
    ensures nersSent == Map(TaggedNer, Flatten(sents))
    ensures possSent == Map(TaggedUpos, Flatten(sents))
  {
    toksSent, nersSent, possSent := [], [], [];
    var s := 0;
    while s < |sents|
      invariant 0 <= s <= |sents|
      invariant toksSent == Map(TaggedText, Flatten(sents[..s]))
      invariant nersSent == Map(TaggedNer, Flatten(sents[..s]))
      invariant possSent == Map(TaggedUpos, Flatten(sents[..s]))
    {
      toksSent, nersSent, possSent := AppendColumns(Flatten(sents[..s]), sents[s], toksSent, nersSent, possSent);
      FlattenPrefix(sents, s);
      s := s + 1;
    }
    assert sents[..s] == sents;
  }

  /** The inner loop of lines 144-147 over one sentence of the context. */
  method AppendColumns(ghost seen: seq<TaggedToken>, sentence: seq<TaggedToken>,
                       toksSent: seq<string>, nersSent: seq<string>, possSent: seq<string>)
    returns (toksSent': seq<string>, nersSent': seq<string>, possSent': seq<string>)
    requires toksSent == Map(TaggedText, seen) && nersSent == Map(TaggedNer, seen) && possSent == Map(TaggedUpos, seen)
    ensures toksSent' == Map(TaggedText, seen + sentence)
    ensures nersSent' == Map(TaggedNer, seen + sentence)
    ensures possSent' == Map(TaggedUpos, seen + sentence)
  {
    toksSent', nersSent', possSent' := toksSent, nersSent, possSent;
    assert seen + sentence[..0] == seen;
    var k := 0;
    while k < |sentence|
      invariant 0 <= k <= |sentence|
      invariant toksSent' == Map(TaggedText, seen + sentence[..k])
      invariant nersSent' == Map(TaggedNer, seen + sentence[..k])
      invariant possSent' == Map(TaggedUpos, seen + sentence[..k])
    {
      var token := sentence[k];
      assert seen + sentence[..k + 1] == (seen + sentence[..k]) + [token];
      MapSnoc(TaggedText, seen + sentence[..k], token);
      MapSnoc(TaggedNer, seen + sentence[..k], token);
      MapSnoc(TaggedUpos, seen + sentence[..k], token);
      toksSent' := toksSent' + [token.text];
      nersSent' := nersSent' + [token.ner];
      possSent' := possSent' + [token.upos];
      k := k + 1;
    }
    assert sentence[..k] == sentence;
  }

  function RecordContext(r: SimpleRecord): string { r.context }

  /**
    Instances that share their context with the instance before them never
    run the tagger on it again: the tagger runs once per run of equal
    contexts.
  */
  lemma {:induction false} RepeatedContextTaggedOnce(held: set<string>, contexts: seq<string>, c: string, n: nat)
    ensures Misses(held, contexts + [c] + Repeat(c, n)) == Misses(held, contexts + [c])
    decreases n
  {
    if n == 0 {
      assert contexts + [c] + Repeat(c, n) == contexts + [c];
    } else {
      RepeatedContextTaggedOnce(held, contexts, c, n - 1);
      var pre := contexts + [c] + Repeat(c, n - 1);
      assert contexts + [c] + Repeat(c, n) == pre + [c];
      MissesSnoc(held, pre, c);
      assert pre[|pre| - 1] == c;
      assert KeysAfter(held, pre) == {c};
    }
  }

  /** n copies of c. */
  function Repeat(c: string, n: nat): (r: seq<string>)
    ensures |r| == n && forall k :: 0 <= k < n ==> r[k] == c
  {
    if n == 0 then [] else Repeat(c, n - 1) + [c]
  }

  /** The tagger is run on at most one context per instance, and only on contexts of the data. */
  lemma {:induction false} ContextMissesBound(held: set<string>, contexts: seq<string>)
    ensures |Misses(held, contexts)| <= |contexts|
    ensures forall c :: c in Misses(held, contexts) ==> c in contexts
    decreases |contexts|
  {
    if contexts != [] {
      var n := |contexts| - 1;
      ContextMissesBound(held, contexts[..n]);
      assert forall c :: c in contexts[..n] ==> c in contexts;
    }
  }

  /** Lines 125-152: one instance's entries, from the tagger's output for its three texts. */
  method AppendAnnotations(info: AnnotationInfo, instance: SimpleRecord, questions: Tagged, answers: Tagged, contexts: Tagged)
    returns (info': AnnotationInfo)
    ensures info' == AddInstance(info, EntryOf(instance, questions, answers, contexts))
  {
    var questionToks := SentenceTokenTexts(questions);
    var answerToks := SentenceTokenTexts(answers);
    var toksSent, nersSent, possSent := ContextColumns(contexts);
    info' := AnnotationInfo(
      info.ids + [instance.id],
      info.contextToks + [JoinSpace(toksSent)],
      info.contextNers + [JoinSpace(nersSent)],
      info.contextPoss + [JoinSpace(possSent)],
      info.answerStartAndEndPositions,
      info.answerStartCharIndices + [instance.answerStart],
      info.questionToks + [JoinSpace(questionToks)],
      info.answerToks + [JoinSpace(answerToks)]);
  }

  /**
    getAnnotationInfo (lines 99-155): the question and the answer are tagged
    on every instance, the context through the cache.
  */
  method GetAnnotationInfo(cache: SingleEntryCache<string, Tagged>, nlp: string -> Tagged, data: seq<SimpleRecord>)
    returns (info: AnnotationInfo)
    requires cache.Valid() && cache.Coherent(nlp)
    modifies cache
    ensures cache.Valid() && cache.Coherent(nlp)
    ensures info == Annotations(nlp, data)
    ensures cache.entries.Keys == KeysAfter(old(cache.entries.Keys), Map(RecordContext, data))
    ensures cache.calls == old(cache.calls) + Misses(old(cache.entries.Keys), Map(RecordContext, data))
  {
    info := NO_ANNOTATIONS;
    ghost var held := cache.entries.Keys;
    ghost var calls := cache.calls;
    var k := 0;
    while k < |data|
      invariant 0 <= k <= |data|
      invariant cache.Valid() && cache.Coherent(nlp)
      invariant info == Annotations(nlp, data[..k])
      invariant cache.entries.Keys == KeysAfter(held, Map(RecordContext, data[..k]))
      invariant cache.calls == calls + Misses(held, Map(RecordContext, data[..k]))
    {
      var instance := data[k];
      var questions := nlp(instance.question);
      var answers := nlp(instance.answer);
      var contexts := LookupContext(cache, nlp, held, calls, data, k);
      ghost var e := EntryOf(instance, questions, answers, contexts);
      info := AppendAnnotations(info, instance, questions, answers, contexts);
      assert info == Annotations(nlp, data[..k + 1]) by {
        AnnotationsSnoc(nlp, data, k, e);
      }
      k := k + 1;
    }
    assert data[..k] == data;
  }

  /**
    Lines 117-123 for instance k: the context is tagged through the cache,
    which runs the tagger exactly when the context is not the key it holds.
  */
  method LookupContext(cache: SingleEntryCache<string, Tagged>, nlp: string -> Tagged,
                       ghost held: set<string>, ghost calls: seq<string>, data: seq<SimpleRecord>, k: nat)
    returns (contexts: Tagged)
    requires k < |data|
    requires cache.Valid() && cache.Coherent(nlp)
    requires cache.entries.Keys == KeysAfter(held, Map(RecordContext, data[..k]))
    requires cache.calls == calls + Misses(held, Map(RecordContext, data[..k]))
    modifies cache
    ensures cache.Valid() && cache.Coherent(nlp)
    ensures contexts == nlp(data[k].context)
    ensures cache.entries.Keys == KeysAfter(held, Map(RecordContext, data[..k + 1]))
    ensures cache.calls == calls + Misses(held, Map(RecordContext, data[..k + 1]))
  {
    var hit;
    contexts, hit := cache.Lookup(data[k].context, nlp);
    ContextsSnoc(held, data, k);
  }

  lemma AnnotationsSnoc(nlp: string -> Tagged, data: seq<SimpleRecord>, k: nat, e: Entry)
    requires k < |data|
    requires e == EntryOf(data[k], nlp(data[k].question), nlp(data[k].answer), nlp(data[k].context))
    ensures Annotations(nlp, data[..k + 1]) == AddInstance(Annotations(nlp, data[..k]), e)
  {
    assert data[..k + 1][..k] == data[..k] && data[..k + 1][k] == data[k];
    var es := TaggedEntries(nlp, data[..k + 1]);
    assert es[..|es| - 1] == TaggedEntries(nlp, data[..k]);
  }

  lemma ContextsSnoc(held: set<string>, data: seq<SimpleRecord>, k: nat)
    requires k < |data|
    ensures var cs := Map(RecordContext, data[..k]);
      && Misses(held, Map(RecordContext, data[..k + 1])) ==
         Misses(held, cs) + (if data[k].context in KeysAfter(held, cs) then [] else [data[k].context])
      && KeysAfter(held, Map(RecordContext, data[..k + 1])) == {data[k].context}
  {
    assert data[..k + 1] == data[..k] + [data[k]];
    MapSnoc(RecordContext, data[..k], data[k]);
    MissesSnoc(held, Map(RecordContext, data[..k]), data[k].context);
  }

  /**
    A context's token line splits back into its tokens, as the coreference
    annotation's input reader splits it, when no token text is empty or
    holds a space.
  */
  lemma TokenLineSplits(t: Tagged)
    requires |Flatten(t)| >= 1
    requires forall k :: 0 <= k < |Flatten(t)| ==> Flatten(t)[k].text != "" && ' ' !in Flatten(t)[k].text
    ensures SplitSpaceRuns(TokenLine(t)) == Map(TaggedText, Flatten(t))
  {
    SplitJoin(Map(TaggedText, Flatten(t)));
  }

  // ---------------------------------------------------------------------------
  // convert2squadsplitFormat and the script
  // ---------------------------------------------------------------------------

  /** getAnnotationInfo's return statement (line 155) builds a tuple of this many lists. */
  const RETURNED_LISTS: nat := 8
  /** convert2squadsplitFormat's assignment (line 192) names this many targets. */
  const UNPACK_TARGETS: nat := 9

  /**
    convert2squadsplitFormat (lines 190-218): after the annotation pass, the
    unpacking of its result raises, so no split record is ever built.
  */
  method Convert2SquadSplitFormat(cache: SingleEntryCache<string, Tagged>, nlp: string -> Tagged, data: seq<SimpleRecord>)
    returns (e: PreprocessError)
    requires cache.Valid() && cache.Coherent(nlp)
    modifies cache
    ensures cache.Valid() && cache.Coherent(nlp)
    ensures e == NotEnoughValuesToUnpack(UNPACK_TARGETS, RETURNED_LISTS)
    ensures cache.entries.Keys == KeysAfter(old(cache.entries.Keys), Map(RecordContext, data))
    ensures cache.calls == old(cache.calls) + Misses(old(cache.entries.Keys), Map(RecordContext, data))
  {
    var info := GetAnnotationInfo(cache, nlp, data);
    return NotEnoughValuesToUnpack(UNPACK_TARGETS, RETURNED_LISTS);
  }

  /** The script's pipeline (line 235): conversion, then the split format; it always ends in an exception. */
  method Preprocess(cache: SingleEntryCache<string, Tagged>, nlp: string -> Tagged, raws: seq<Topic>)
    returns (e: PreprocessError)
    requires cache.Valid() && cache.Coherent(nlp)
    modifies cache
    ensures cache.Valid() && cache.Coherent(nlp)
    ensures Convert(raws).Failure? ==>
      e == Convert(raws).error && cache.entries == old(cache.entries) && cache.calls == old(cache.calls)
    ensures Convert(raws).Success? ==>
      && e == NotEnoughValuesToUnpack(UNPACK_TARGETS, RETURNED_LISTS)
      && cache.entries.Keys == KeysAfter(old(cache.entries.Keys), Map(RecordContext, Convert(raws).value))
      && cache.calls == old(cache.calls) + Misses(old(cache.entries.Keys), Map(RecordContext, Convert(raws).value))
  {
    var simple := Convert2SimpleFormat(raws);
    if simple.Failure? {
      return simple.error;
    }
    e := Convert2SquadSplitFormat(cache, nlp, simple.value);
  }
}
