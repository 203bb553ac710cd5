/**
  Graph fusion of annotation/annotate_coref_graphs.py: one adjacency map per
  document built from the dependency parse (head -> dependent), `neigh` links
  between the roots of adjacent sentences, and `coref` links from mention heads
  to cluster heads, plus the token list and the edge counter, and the driver's
  token-count check. The coreference predictor, the regex-tokenised parser used
  for span heads and the spaCy pipeline are parameters.
*/
module CorefGraph {
  import opened Wrappers
  import opened Seqs
  import opened MemoCache

  /** A parsed token as spaCy exposes it: `i`, `text`, `head.i` and `dep_`. */
  datatype Token = Token(i: nat, text: string, head: nat, dep: string)
  type Sentence = seq<Token>
  /** `doc.sents`: the sentences of a parsed text, each a list of tokens. */
  type Parse = seq<Sentence>

  /** An inclusive `[start, end]` token span of the coreference prediction. */
  datatype Span = Span(start: nat, end: nat)
  /** A cluster lists its representative span first, then its mentions. */
  type Cluster = seq<Span>
  /** The predictor's answer: `prediction['document']` and `prediction['clusters']`. */
  datatype Prediction = Prediction(document: seq<string>, clusters: seq<Cluster>)

  /** A key or target of the adjacency map; `None` stands for Python's None (a sentence without a root). */
  type Node = Option<nat>
  /** One adjacency entry `{'node': ..., 'edge': ...}`. */
  datatype Edge = Edge(node: Node, edge: string)
  /** An appended entry together with the key whose list it went to. */
  type Arc = (Node, Edge)
  type Adjacency = map<Node, seq<Edge>>
  /** The `{'g_features', 'g_adj', 'num_edges'}` result. */
  datatype Graph = Graph(features: seq<string>, adj: Adjacency, numEdges: nat)

  /** The exceptions the fusion and the driver raise. */
  datatype GraphError =
    | IndexError                                   // an empty cluster or a mention outside the document
    | TypeError                                    // `start + None`: the span parse has no root
    | TokenCountMismatch(tokens: nat, features: nat) // the driver's abort

  const NEIGH: string := "neigh"
  const COREF: string := "coref"

  /** A token is a root when it is its own head (same index, hence the same token and text). */
  predicate IsRoot(t: Token) {
    t.i == t.head
  }

  function TokenText(t: Token): string {
    t.text
  }

  // ---------------------------------------------------------------------------
  // Head selection: get_head_of_sentence and get_coref_span_head
  // ---------------------------------------------------------------------------

  /** The index of the first root token, or None when there is none. */
  function FirstRoot(ts: seq<Token>): (r: Node) {
    if ts == [] then None
    else if IsRoot(ts[0]) then Some(ts[0].i)
    else FirstRoot(ts[1..])
  }

  /** FirstRoot finds no root exactly when there is none. */
  lemma {:induction false} FirstRootNone(ts: seq<Token>)
    ensures FirstRoot(ts).None? <==> forall k :: 0 <= k < |ts| ==> !IsRoot(ts[k])
  {
    if ts != [] && !IsRoot(ts[0]) {
      var tail := ts[1..];
      FirstRootNone(tail);
      assert forall k :: 1 <= k < |ts| ==> ts[k] == tail[k - 1];
    }
  }

  /** A root FirstRoot finds is the first root of the sequence. */
  lemma {:induction false} FirstRootIsFirst(ts: seq<Token>)
    ensures FirstRoot(ts).Some? ==>
      exists k :: 0 <= k < |ts| && IsRoot(ts[k]) && FirstRoot(ts).value == ts[k].i &&
        forall j :: 0 <= j < k ==> !IsRoot(ts[j])
  {
    if ts != [] && !IsRoot(ts[0]) {
      var tail := ts[1..];
      FirstRootIsFirst(tail);
      if FirstRoot(tail).Some? {
        var k :| 0 <= k < |tail| && IsRoot(tail[k]) && FirstRoot(tail).value == tail[k].i &&
          forall j :: 0 <= j < k ==> !IsRoot(tail[j]);
        assert tail[k] == ts[k + 1];
        assert forall j :: 0 <= j < k + 1 ==> !IsRoot(ts[j]) by {
          forall j | 0 <= j < k + 1 ensures !IsRoot(ts[j]) {
            if j > 0 { assert ts[j] == tail[j - 1]; }
          }
        }
      }
    }
  }

  lemma {:induction false} FirstRootAppend(a: seq<Token>, b: seq<Token>)
    ensures FirstRoot(a + b) == if FirstRoot(a).Some? then FirstRoot(a) else FirstRoot(b)
    decreases |a|
  {
    if a == [] {
      assert a + b == b;
    } else {
      assert (a + b)[0] == a[0];
      assert (a + b)[1..] == a[1..] + b;
      FirstRootAppend(a[1..], b);
    }
  }

  /** get_head_of_sentence: the first token of the sentence that is its own head. */
  method HeadOfSentence(sentence: Sentence) returns (r: Node)
    ensures r == FirstRoot(sentence)
  {
    var k := 0;
    while k < |sentence|
      invariant 0 <= k <= |sentence|
      invariant FirstRoot(sentence[k..]) == FirstRoot(sentence)
    {
      assert sentence[k..][0] == sentence[k];
      if IsRoot(sentence[k]) {
        return Some(sentence[k].i);
      }
      assert sentence[k..][1..] == sentence[k + 1..];
      k := k + 1;
    }
    return None;
  }

  /** get_coref_span_head: parses the span text and returns the first root over all its sentences. */
  method CorefSpanHead(regexParse: string -> Parse, span: string) returns (r: Node)
    ensures r == FirstRoot(Flatten(regexParse(span)))
  {
    var doc := regexParse(span);
    var s := 0;
    while s < |doc|
      invariant 0 <= s <= |doc|
      invariant FirstRoot(Flatten(doc[..s])) == None
    {
      var sentence := doc[s];
      assert Flatten(doc[..s]) + sentence[..0] == Flatten(doc[..s]);
      var k := 0;
      while k < |sentence|
        invariant 0 <= k <= |sentence|
        invariant FirstRoot(Flatten(doc[..s]) + sentence[..k]) == None
      {
        if IsRoot(sentence[k]) {
          FirstRootFound(doc, s, k);
          return Some(sentence[k].i);
        }
        FirstRootSkip(doc, s, k);
        k := k + 1;
      }
      FirstRootNextSentence(doc, s);
      s := s + 1;
    }
    assert doc[..s] == doc;
    return None;
  }

  /** When nothing before token k of sentence s is a root and that token is, it is the first root of the parse. */
  lemma FirstRootFound(doc: Parse, s: nat, k: nat)
    requires s < |doc| && k < |doc[s]|
    requires FirstRoot(Flatten(doc[..s]) + doc[s][..k]) == None
    requires IsRoot(doc[s][k])
    ensures FirstRoot(Flatten(doc)) == Some(doc[s][k].i)
  {
    var sentence := doc[s];
    var done := Flatten(doc[..s]) + sentence[..k];
    var rest := sentence[k..] + Flatten(doc[s + 1..]);
    assert Flatten(doc) == done + rest by {
      FlattenSplit(doc, s);
      Reassociate(Flatten(doc[..s]), sentence[..k], sentence[k..], Flatten(doc[s + 1..]));
      assert sentence[..k] + sentence[k..] == sentence;
    }
    assert rest != [] && rest[0] == sentence[k];
    FirstRootAfter(done, rest);
  }

  /** Regrouping four stretches; kept apart so that the proof above does not see the concatenations unfold. */
  lemma Reassociate<T>(a: seq<T>, b: seq<T>, c: seq<T>, d: seq<T>)
    ensures a + ((b + c) + d) == (a + b) + (c + d)
  {
  }

  /** A root right after a stretch with none is the first root. */
  lemma FirstRootAfter(a: seq<Token>, b: seq<Token>)
    requires FirstRoot(a) == None && b != [] && IsRoot(b[0])
    ensures FirstRoot(a + b) == Some(b[0].i)
  {
    FirstRootAppend(a, b);
  }

  lemma FirstRootSkip(doc: Parse, s: nat, k: nat)
    requires s < |doc| && k < |doc[s]|
    requires FirstRoot(Flatten(doc[..s]) + doc[s][..k]) == None
    requires !IsRoot(doc[s][k])
    ensures FirstRoot(Flatten(doc[..s]) + doc[s][..k + 1]) == None
  {
    var sentence, before := doc[s], Flatten(doc[..s]);
    assert before + sentence[..k + 1] == (before + sentence[..k]) + [sentence[k]] by {
      assert sentence[..k + 1] == sentence[..k] + [sentence[k]];
    }
    FirstRootSkipOne(before + sentence[..k], sentence[k]);
  }

  lemma FirstRootSkipOne(a: seq<Token>, t: Token)
    requires FirstRoot(a) == None && !IsRoot(t)
    ensures FirstRoot(a + [t]) == None
  {
    FirstRootAppend(a, [t]);
  }

  lemma FirstRootNextSentence(doc: Parse, s: nat)
    requires s < |doc|
    requires FirstRoot(Flatten(doc[..s]) + doc[s][..|doc[s]|]) == None
    ensures FirstRoot(Flatten(doc[..s + 1])) == None
  {
    assert doc[s][..|doc[s]|] == doc[s];
    FlattenPrefix(doc, s);
  }

  // ---------------------------------------------------------------------------
  // Span heads and coreference links (the cluster loop)
  // ---------------------------------------------------------------------------

  /** `start + get_coref_span_head(...)`; adding None raises a TypeError. */
  function RelativeHead(start: nat, spanParse: Parse): Result<nat, GraphError> {
    match FirstRoot(Flatten(spanParse))
    case None => Failure(TypeError)
    case Some(rel) => Success(start + rel)
  }

  /**
    Head of a mention: a one-token range gives its start; a longer range is
    joined from the document tokens it indexes and parsed; an empty range
    raises an IndexError when its first element is taken.
  */
  function MentionHead(m: Span, document: seq<string>, regexParse: string -> Parse): (r: Result<nat, GraphError>) {
    if m.start == m.end then Success(m.start)
    else if m.end < m.start || |document| <= m.end then Failure(IndexError)
    else RelativeHead(m.start, regexParse(JoinSpace(document[m.start..m.end + 1])))
  }

  /** Head of a cluster's representative span; this text is taken by slicing, which never raises. */
  function ClusterHead(s: Span, document: seq<string>, regexParse: string -> Parse): (r: Result<nat, GraphError>) {
    if s.start == s.end then Success(s.start)
    else RelativeHead(s.start, regexParse(JoinSpace(PySlice(document, s.start, s.end + 1))))
  }

  /** Both head rules pick the same token for a well-formed span inside the document. */
  lemma HeadsAgreeInRange(s: Span, document: seq<string>, regexParse: string -> Parse)
    requires s.start <= s.end < |document|
    ensures MentionHead(s, document, regexParse) == ClusterHead(s, document, regexParse)
  {
    if s.start != s.end {
      assert PySlice(document, s.start, s.end + 1) == document[s.start..s.end + 1];
    }
  }

  /** The two head rules of the cluster loop: one for mentions, one for a cluster's representative span. */
  datatype HeadRules = HeadRules(mention: Span -> Result<nat, GraphError>, representative: Span -> Result<nat, GraphError>)

  /** The rules extract_sent_coref_dep_tree applies, for one document and one span parser. */
  function SourceRules(document: seq<string>, regexParse: string -> Parse): HeadRules {
    HeadRules(m => MentionHead(m, document, regexParse), s => ClusterHead(s, document, regexParse))
  }

  /** `[(m, head) for m in ms]`. */
  function LinkTo(head: nat, ms: seq<nat>): (r: seq<(nat, nat)>)
    ensures |r| == |ms|
    ensures forall k :: 0 <= k < |ms| ==> r[k] == (ms[k], head)
  {
    if ms == [] then [] else LinkTo(head, ms[..|ms| - 1]) + [(ms[|ms| - 1], head)]
  }

  lemma LinkToSnoc(head: nat, ms: seq<nat>, m: nat)
    ensures LinkTo(head, ms + [m]) == LinkTo(head, ms) + [(m, head)]
  {
    assert (ms + [m])[..|ms|] == ms;
  }

  /** The state of the cluster loop: `mention_heads` and `span_connection`. */
  datatype CorefScan = CorefScan(mentionHeads: seq<nat>, links: seq<(nat, nat)>)

  /**
    One cluster: its mentions' heads are appended to the running
    `mention_heads`, then every head gathered so far, from this and all
    earlier clusters, is linked to this cluster's head.
  */
  function ClusterStep(sc: CorefScan, c: Cluster, rules: HeadRules): Result<CorefScan, GraphError> {
    if c == [] then Failure(IndexError)
    else
      match Gather(c[1..], rules.mention)
      case Failure(e) => Failure(e)
      case Success(hs) =>
        match rules.representative(c[0])
        case Failure(e) => Failure(e)
        case Success(h) =>
          var heads := sc.mentionHeads + hs;
          Success(CorefScan(heads, sc.links + LinkTo(h, heads)))
  }

  /** The cluster loop over all clusters, stopping at the first exception. */
  function CorefLinks(clusters: seq<Cluster>, rules: HeadRules): (r: Result<CorefScan, GraphError>) {
    if clusters == [] then Success(CorefScan([], []))
    else
      match CorefLinks(clusters[..|clusters| - 1], rules)
      case Failure(e) => Failure(e)
      case Success(sc) => ClusterStep(sc, clusters[|clusters| - 1], rules)
  }

  lemma {:induction false} CorefLinksSticky(clusters: seq<Cluster>, rules: HeadRules, n: nat)
    requires n <= |clusters|
    requires CorefLinks(clusters[..n], rules).Failure?
    ensures CorefLinks(clusters, rules) == CorefLinks(clusters[..n], rules)
    decreases |clusters| - n
  {
    if n == |clusters| {
      assert clusters[..n] == clusters;
    } else {
      var k := |clusters| - 1;
      assert clusters[..k][..n] == clusters[..n];
      CorefLinksSticky(clusters[..k], rules, n);
    }
  }

  /** A cluster through which the loop passes without an exception. */
  predicate ClusterOk(c: Cluster, rules: HeadRules) {
    c != [] && Gather(c[1..], rules.mention).Success? && rules.representative(c[0]).Success?
  }

  /** The cluster loop raises exactly when some cluster cannot be passed. */
  lemma {:induction false} CorefLinksSucceeds(clusters: seq<Cluster>, rules: HeadRules)
    ensures CorefLinks(clusters, rules).Success? <==>
      forall c :: 0 <= c < |clusters| ==> ClusterOk(clusters[c], rules)
    decreases |clusters|
  {
    if clusters != [] {
      var n := |clusters| - 1;
      CorefLinksSucceeds(clusters[..n], rules);
      assert forall c :: 0 <= c < n ==> clusters[..n][c] == clusters[c];
    }
  }

  /** `sum(|mention heads of clusters 0..c|  for each cluster c)`: the number of links the loop makes. */
  function AccumulatedCount(hss: seq<seq<nat>>): nat {
    if hss == [] then 0 else AccumulatedCount(hss[..|hss| - 1]) + |Flatten(hss)|
  }

  lemma {:induction false} FlattenMember(hss: seq<seq<nat>>, m: nat)
    ensures m in Flatten(hss) <==> exists c :: 0 <= c < |hss| && m in hss[c]
    decreases |hss|
  {
    if hss != [] {
      var n := |hss| - 1;
      FlattenMember(hss[..n], m);
      assert forall c :: 0 <= c < n ==> hss[..n][c] == hss[c];
    }
  }

  /** The links the cluster loop makes: cluster c links every mention head of clusters 0..c to heads[c]. */
  function LinksOf(hss: seq<seq<nat>>, heads: seq<nat>): seq<(nat, nat)>
    requires |heads| == |hss|
  {
    if hss == [] then []
    else
      var n := |hss| - 1;
      LinksOf(hss[..n], heads[..n]) + LinkTo(heads[n], Flatten(hss))
  }

  /**
    When every cluster c yields mention heads hss[c] and head heads[c], the
    loop succeeds, `mention_heads` ends as all mention heads in order, and
    `span_connection` is LinksOf.
  */
  lemma {:induction false} AccumulatedLinks(clusters: seq<Cluster>, rules: HeadRules,
                                            hss: seq<seq<nat>>, heads: seq<nat>)
    requires |hss| == |clusters| && |heads| == |clusters|
    requires forall c :: 0 <= c < |clusters| ==>
      clusters[c] != [] &&
      Gather(clusters[c][1..], rules.mention) == Success(hss[c]) &&
      rules.representative(clusters[c][0]) == Success(heads[c])
    ensures CorefLinks(clusters, rules) == Success(CorefScan(Flatten(hss), LinksOf(hss, heads)))
    decreases |clusters|
  {
    if clusters != [] {
      var n := |clusters| - 1;
      var pre, hpre, kpre := clusters[..n], hss[..n], heads[..n];
      assert forall c :: 0 <= c < n ==> pre[c] == clusters[c] && hpre[c] == hss[c] && kpre[c] == heads[c];
      AccumulatedLinks(pre, rules, hpre, kpre);
      var sc := CorefScan(Flatten(hpre), LinksOf(hpre, kpre));
      assert CorefLinks(clusters, rules) == ClusterStep(sc, clusters[n], rules);
      assert ClusterStep(sc, clusters[n], rules) ==
        Success(CorefScan(sc.mentionHeads + hss[n], sc.links + LinkTo(heads[n], sc.mentionHeads + hss[n])));
      assert Flatten(hss) == Flatten(hpre) + hss[n];
      assert LinksOf(hss, heads) == sc.links + LinkTo(heads[n], Flatten(hss));
    }
  }

  /** Cluster c makes as many links as there are mention heads in clusters 0..c. */
  lemma {:induction false} LinksOfCount(hss: seq<seq<nat>>, heads: seq<nat>)
    requires |heads| == |hss|
    ensures |LinksOf(hss, heads)| == AccumulatedCount(hss)
    decreases |hss|
  {
    if hss != [] {
      LinksOfCount(hss[..|hss| - 1], heads[..|hss| - 1]);
    }
  }

  /**
    The accumulation quirk: (m, h) is linked exactly when m is a mention head
    of some cluster at or before a cluster whose head is h, not only of the
    cluster whose head is h.
  */
  lemma {:induction false} LinksOfMember(hss: seq<seq<nat>>, heads: seq<nat>, m: nat, h: nat)
    requires |heads| == |hss|
    ensures (m, h) in LinksOf(hss, heads) <==>
      exists c, c' :: 0 <= c' <= c < |hss| && m in hss[c'] && h == heads[c]
    decreases |hss|
  {
    if hss != [] {
      var n := |hss| - 1;
      var all := Flatten(hss);
      var last := LinkTo(heads[n], all);
      LinksOfMember(hss[..n], heads[..n], m, h);
      FlattenMember(hss, m);
      assert LinksOf(hss, heads) == LinksOf(hss[..n], heads[..n]) + last;
      if (m, h) in last {
        var k :| 0 <= k < |last| && last[k] == (m, h);
        assert m in all;
        var c' :| 0 <= c' < |hss| && m in hss[c'];
        assert 0 <= c' <= n < |hss| && m in hss[c'] && h == heads[n];
      }
      if (m, h) in LinksOf(hss[..n], heads[..n]) {
        var c, c' :| 0 <= c' <= c < n && m in hss[..n][c'] && h == heads[..n][c];
        assert 0 <= c' <= c < |hss| && m in hss[c'] && h == heads[c];
      }
      if exists c, c' :: 0 <= c' <= c < |hss| && m in hss[c'] && h == heads[c] {
        var c, c' :| 0 <= c' <= c < |hss| && m in hss[c'] && h == heads[c];
        if c < n {
          assert m in hss[..n][c'] && h == heads[..n][c];
        } else {
          assert m in all;
          var k :| 0 <= k < |all| && all[k] == m;
          assert last[k] == (m, h);
        }
      }
    }
  }

  /** A one-token mention's head is its start, whatever the document and the parser. */
  lemma OneTokenMention(m: Span, document: seq<string>, regexParse: string -> Parse)
    requires m.start == m.end
    ensures Gather([m], SourceRules(document, regexParse).mention) == Success([m.start])
  {
    var ms, head := [m], SourceRules(document, regexParse).mention;
    assert ms[..0] == [] && ms[0] == m && |ms| - 1 == 0;
    assert Gather(ms[..0], head) == Success([]);
    assert [] + [m.start] == [m.start];
  }

  /**
    Two clusters of one-token spans: the second cluster's head also receives
    a link from the first cluster's mention b, although b is not in it.
  */
  lemma MentionHeadsCarryAcrossClusters(document: seq<string>, regexParse: string -> Parse, a: nat, b: nat, c: nat, d: nat)
    ensures CorefLinks([[Span(a, a), Span(b, b)], [Span(c, c), Span(d, d)]], SourceRules(document, regexParse))
      == Success(CorefScan([b, d], [(b, a), (b, c), (d, c)]))
  {
    var rules := SourceRules(document, regexParse);
    var clusters := [[Span(a, a), Span(b, b)], [Span(c, c), Span(d, d)]];
    var hss: seq<seq<nat>>, heads: seq<nat> := [[b], [d]], [a, c];
    assert forall k :: 0 <= k < |clusters| ==>
      clusters[k] != [] &&
      Gather(clusters[k][1..], rules.mention) == Success(hss[k]) &&
      rules.representative(clusters[k][0]) == Success(heads[k])
    by {
      assert clusters[0][1..] == [Span(b, b)] && clusters[1][1..] == [Span(d, d)];
      OneTokenMention(Span(b, b), document, regexParse);
      OneTokenMention(Span(d, d), document, regexParse);
    }
    AccumulatedLinks(clusters, rules, hss, heads);
    TwoClusterLinks(b, d, a, c);
  }

  lemma TwoClusterLinks(b: nat, d: nat, a: nat, c: nat)
    ensures Flatten([[b], [d]]) == [b, d]
    ensures LinksOf([[b], [d]], [a, c]) == [(b, a), (b, c), (d, c)]
  {
    OneClusterLinks(b, a);
    LinksOfSnoc([[b]], [a], [d], c);
    assert [[b]] + [[d]] == [[b], [d]] && [a] + [c] == [a, c];
    assert [b] + [d] == [b, d];
    assert LinkTo(c, [b, d]) == [(b, c), (d, c)];
  }

  lemma OneClusterLinks(b: nat, a: nat)
    ensures Flatten([[b]]) == [b]
    ensures LinksOf([[b]], [a]) == [(b, a)]
  {
    LinksOfSnoc([], [], [b], a);
    assert [] + [[b]] == [[b]] && [] + [a] == [a] && [] + [b] == [b];
    assert LinkTo(a, [b]) == [(b, a)];
  }

  lemma LinksOfSnoc(hss: seq<seq<nat>>, heads: seq<nat>, hs: seq<nat>, h: nat)
    requires |heads| == |hss|
    ensures Flatten(hss + [hs]) == Flatten(hss) + hs
    ensures LinksOf(hss + [hs], heads + [h]) == LinksOf(hss, heads) + LinkTo(h, Flatten(hss) + hs)
  {
    assert (hss + [hs])[..|hss|] == hss && (heads + [h])[..|heads|] == heads;
  }

  /** `start + get_coref_span_head(regex_nlp, text)`. */
  method RelativeHeadOf(start: nat, regexParse: string -> Parse, text: string) returns (r: Result<nat, GraphError>)
    ensures r == RelativeHead(start, regexParse(text))
  {
    var rel := CorefSpanHead(regexParse, text);
    if rel.None? {
      return Failure(TypeError);
    }
    return Success(start + rel.value);
  }

  /** Lines 93-99: the head of one mention, filled out to the index range from its start to its end. */
  method MentionHeadOf(m: Span, document: seq<string>, regexParse: string -> Parse) returns (r: Result<nat, GraphError>)
    ensures r == MentionHead(m, document, regexParse)
  {
    var width := if m.end + 1 >= m.start then m.end + 1 - m.start else 0;
    if width == 1 {
      return Success(m.start);
    } else if width == 0 || |document| <= m.end {
      return Failure(IndexError);
    }
    var mentionText := JoinSpace(document[m.start..m.end + 1]);
    r := RelativeHeadOf(m.start, regexParse, mentionText);
  }

  /** Lines 103-107: the head of a cluster's representative span. */
  method ClusterHeadOf(span: Span, document: seq<string>, regexParse: string -> Parse) returns (r: Result<nat, GraphError>)
    ensures r == ClusterHead(span, document, regexParse)
  {
    if span.start == span.end {
      return Success(span.start);
    }
    var spanText := JoinSpace(PySlice(document, span.start, span.end + 1));
    assert ClusterHead(span, document, regexParse) == RelativeHead(span.start, regexParse(spanText));
    r := RelativeHeadOf(span.start, regexParse, spanText);
  }

  /** Lines 109-110: one `(mention, head)` pair per gathered mention head. */
  method LinkAll(spanConnection: seq<(nat, nat)>, mentionHeads: seq<nat>, head: nat) returns (r: seq<(nat, nat)>)
    ensures r == spanConnection + LinkTo(head, mentionHeads)
  {
    r := spanConnection;
    var k := 0;
    while k < |mentionHeads|
      invariant 0 <= k <= |mentionHeads|
      invariant r == spanConnection + LinkTo(head, mentionHeads[..k])
    {
      assert mentionHeads[..k + 1] == mentionHeads[..k] + [mentionHeads[k]];
      LinkToSnoc(head, mentionHeads[..k], mentionHeads[k]);
      r := r + [(mentionHeads[k], head)];
      k := k + 1;
    }
    assert mentionHeads[..k] == mentionHeads;
  }

  /** The cluster loop of extract_sent_coref_dep_tree (lines 85-110), returning `span_connection`. */
  method CorefConnections(clusters: seq<Cluster>, document: seq<string>, regexParse: string -> Parse)
    returns (r: Result<seq<(nat, nat)>, GraphError>)
    ensures CorefLinks(clusters, SourceRules(document, regexParse)).Success? ==>
      r == Success(CorefLinks(clusters, SourceRules(document, regexParse)).value.links)
    ensures CorefLinks(clusters, SourceRules(document, regexParse)).Failure? ==>
      r == Failure(CorefLinks(clusters, SourceRules(document, regexParse)).error)
  {
    var spanConnection: seq<(nat, nat)> := [];
    var mentionHeads: seq<nat> := [];
    var c := 0;
    while c < |clusters|
      invariant 0 <= c <= |clusters|
      invariant CorefLinks(clusters[..c], SourceRules(document, regexParse)) == Success(CorefScan(mentionHeads, spanConnection))
    {
      var clst := clusters[c];
      assert clusters[..c + 1][..c] == clusters[..c];
      assert clusters[..c + 1][c] == clst;
      if clst == [] {
        CorefLinksSticky(clusters, SourceRules(document, regexParse), c + 1);
        return Failure(IndexError);
      }
      var span := clst[0];
      var gathered := GatherMentionHeads(clst[1..], document, regexParse, mentionHeads);
      if gathered.Failure? {
        CorefLinksSticky(clusters, SourceRules(document, regexParse), c + 1);
        return Failure(gathered.error);
      }
      var head := ClusterHeadOf(span, document, regexParse);
      if head.Failure? {
        CorefLinksSticky(clusters, SourceRules(document, regexParse), c + 1);
        return Failure(head.error);
      }
      mentionHeads := gathered.value;
      spanConnection := LinkAll(spanConnection, mentionHeads, head.value);
      c := c + 1;
    }
    assert clusters[..c] == clusters;
    return Success(spanConnection);
  }

  /**
    The mention loop of lines 92-99: each mention's head is appended to
    `mention_heads` in turn, and the first mention without one raises.
  */
  method GatherMentionHeads(mentions: seq<Span>, document: seq<string>, regexParse: string -> Parse, mentionHeads: seq<nat>)
    returns (r: Result<seq<nat>, GraphError>)
    ensures Gather(mentions, SourceRules(document, regexParse).mention).Success? ==>
      r == Success(mentionHeads + Gather(mentions, SourceRules(document, regexParse).mention).value)
    ensures Gather(mentions, SourceRules(document, regexParse).mention).Failure? ==>
      r == Failure(Gather(mentions, SourceRules(document, regexParse).mention).error)
  {
    var acc := mentionHeads;
    ghost var gathered: seq<nat> := [];
    var i := 0;
    while i < |mentions|
      invariant 0 <= i <= |mentions|
      invariant acc == mentionHeads + gathered
      invariant Gather(mentions[..i], SourceRules(document, regexParse).mention) == Success(gathered)
    {
      var h := MentionHeadOf(mentions[i], document, regexParse);
      assert h == SourceRules(document, regexParse).mention(mentions[i]);
      if h.Failure? {
        GatherStops(mentions, SourceRules(document, regexParse).mention, i);
        return Failure(h.error);
      }
      GatherExtend(mentions, SourceRules(document, regexParse).mention, i, gathered, h.value);
      acc := acc + [h.value];
      gathered := gathered + [h.value];
      i := i + 1;
    }
    assert mentions[..i] == mentions;
    return Success(acc);
  }

  // ---------------------------------------------------------------------------
  // The fused adjacency map
  // ---------------------------------------------------------------------------

  /** The entry a non-root token adds to its head's list. */
  function DepArc(t: Token): Arc {
    (Some(t.head), Edge(Some(t.i), t.dep))
  }

  /** The dependency entries of a token sequence, in token order. */
  function DepArcs(ts: seq<Token>): seq<Arc> {
    if ts == [] then []
    else
      var t := ts[|ts| - 1];
      DepArcs(ts[..|ts| - 1]) + (if IsRoot(t) then [] else [DepArc(t)])
  }

  lemma DepArcsSnoc(ts: seq<Token>, t: Token)
    ensures DepArcs(ts + [t]) == DepArcs(ts) + (if IsRoot(t) then [] else [DepArc(t)])
  {
    assert (ts + [t])[..|ts|] == ts;
  }

  /** The number of tokens that are not their own head. */
  function NonRootCount(ts: seq<Token>): nat {
    if ts == [] then 0 else (if IsRoot(ts[0]) then 0 else 1) + NonRootCount(ts[1..])
  }

  lemma {:induction false} NonRootCountSnoc(ts: seq<Token>, t: Token)
    ensures NonRootCount(ts + [t]) == NonRootCount(ts) + (if IsRoot(t) then 0 else 1)
    decreases |ts|
  {
    if ts == [] {
      assert ([] + [t])[1..] == [];
    } else {
      assert (ts + [t])[0] == ts[0];
      assert (ts + [t])[1..] == ts[1..] + [t];
      NonRootCountSnoc(ts[1..], t);
    }
  }

  /**
    Every non-root token adds exactly one entry, `{node: its index, edge: its
    label}` under its head, at the position given by the non-roots before it,
    and roots add none.
  */
  lemma DepArcsExact(ts: seq<Token>)
    ensures |DepArcs(ts)| == NonRootCount(ts)
    ensures forall j :: 0 <= j < |ts| && !IsRoot(ts[j]) ==>
      NonRootCount(ts[..j]) < |DepArcs(ts)| && DepArcs(ts)[NonRootCount(ts[..j])] == DepArc(ts[j])
    ensures forall a :: a in DepArcs(ts) <==> exists j :: 0 <= j < |ts| && !IsRoot(ts[j]) && a == DepArc(ts[j])
  {
    DepArcsAt(ts);
    DepArcsMember(ts);
  }

  lemma {:induction false} DepArcsAt(ts: seq<Token>)
    ensures |DepArcs(ts)| == NonRootCount(ts)
    ensures forall j :: 0 <= j < |ts| && !IsRoot(ts[j]) ==>
      NonRootCount(ts[..j]) < |DepArcs(ts)| && DepArcs(ts)[NonRootCount(ts[..j])] == DepArc(ts[j])
    decreases |ts|
  {
    if ts != [] {
      var n := |ts| - 1;
      var pre := ts[..n];
      DepArcsAt(pre);
      assert ts == pre + [ts[n]];
      NonRootCountSnoc(pre, ts[n]);
      assert ts[..n] == pre;
      forall j | 0 <= j < |ts| && !IsRoot(ts[j])
        ensures NonRootCount(ts[..j]) < |DepArcs(ts)| && DepArcs(ts)[NonRootCount(ts[..j])] == DepArc(ts[j])
      {
        if j < n {
          assert pre[j] == ts[j];
          assert pre[..j] == ts[..j];
        }
      }
    }
  }

  lemma {:induction false} DepArcsMember(ts: seq<Token>)
    ensures forall a :: a in DepArcs(ts) <==> exists j :: 0 <= j < |ts| && !IsRoot(ts[j]) && a == DepArc(ts[j])
    decreases |ts|
  {
    if ts != [] {
      var n := |ts| - 1;
      var pre := ts[..n];
      DepArcsMember(pre);
      assert DepArcs(ts) == DepArcs(pre) + (if IsRoot(ts[n]) then [] else [DepArc(ts[n])]);
      forall a ensures a in DepArcs(ts) <==> exists j :: 0 <= j < |ts| && !IsRoot(ts[j]) && a == DepArc(ts[j]) {
        if a in DepArcs(pre) {
          var j :| 0 <= j < |pre| && !IsRoot(pre[j]) && a == DepArc(pre[j]);
          assert ts[j] == pre[j];
        }
        if exists j :: 0 <= j < |ts| && !IsRoot(ts[j]) && a == DepArc(ts[j]) {
          var j :| 0 <= j < |ts| && !IsRoot(ts[j]) && a == DepArc(ts[j]);
          if j < n {
            assert pre[j] == ts[j];
            assert a in DepArcs(pre);
          }
        }
      }
    }
  }

  /** The two `neigh` entries between adjacent sentence roots a and b. */
  function NeighPair(a: Node, b: Node): seq<Arc> {
    [(a, Edge(b, NEIGH)), (b, Edge(a, NEIGH))]
  }

  /** The `neigh` entries for the first n adjacent pairs. */
  function NeighArcsUpTo(b: seq<Node>, n: nat): seq<Arc>
    requires n == 0 || n < |b|
  {
    if n == 0 then [] else NeighArcsUpTo(b, n - 1) + NeighPair(b[n - 1], b[n])
  }

  /** Pair i adds its two entries after those of the earlier pairs. */
  lemma NeighStep(b: seq<Node>, i: nat)
    requires i + 1 < |b|
    ensures NeighArcsUpTo(b, i + 1) ==
      NeighArcsUpTo(b, i) + [(b[i], Edge(b[i + 1], NEIGH))] + [(b[i + 1], Edge(b[i], NEIGH))]
  {
  }

  /** `len(range(k - 1))`: the number of adjacent pairs among k sentences. */
  function PairCount(k: nat): nat {
    if k == 0 then 0 else k - 1
  }

  function NeighArcs(b: seq<Node>): seq<Arc> {
    NeighArcsUpTo(b, PairCount(|b|))
  }

  /**
    Pair i contributes entries 2i (root i to root i+1) and 2i+1 (back), so k
    sentences give 2(k-1) entries, and none when k is 0.
  */
  lemma {:induction false} NeighArcsShape(b: seq<Node>, n: nat)
    requires n == 0 || n < |b|
    ensures |NeighArcsUpTo(b, n)| == 2 * n
    ensures forall i :: 0 <= i < n ==>
      NeighArcsUpTo(b, n)[2 * i] == (b[i], Edge(b[i + 1], NEIGH)) &&
      NeighArcsUpTo(b, n)[2 * i + 1] == (b[i + 1], Edge(b[i], NEIGH))
  {
    if n > 0 {
      NeighArcsShape(b, n - 1);
    }
  }

  /** A `span_connection` pair becomes one entry from the mention head to the cluster head. */
  function CorefArc(l: (nat, nat)): Arc {
    (Some(l.0), Edge(Some(l.1), COREF))
  }

  /** `boundary_nodes`: the root of each sentence. */
  function Boundaries(doc: Parse): seq<Node> {
    Map(FirstRoot, doc)
  }

  /** Every entry the fusion appends, in the order it appends them. */
  function GraphArcs(doc: Parse, links: seq<(nat, nat)>): seq<Arc> {
    DepArcs(Flatten(doc)) + NeighArcs(Boundaries(doc)) + Map(CorefArc, links)
  }

  /** `dep_tree[k].append(e)` on a `defaultdict(list)`. */
  function Append(adj: Adjacency, k: Node, e: Edge): Adjacency {
    adj[k := (if k in adj then adj[k] else []) + [e]]
  }

  /** The adjacency map the appends build, starting from an empty defaultdict. */
  function Group(arcs: seq<Arc>): Adjacency {
    if arcs == [] then map[]
    else
      var a := arcs[|arcs| - 1];
      Append(Group(arcs[..|arcs| - 1]), a.0, a.1)
  }

  lemma GroupSnoc(arcs: seq<Arc>, a: Arc)
    ensures Group(arcs + [a]) == Append(Group(arcs), a.0, a.1)
  {
    assert (arcs + [a])[..|arcs|] == arcs;
  }

  /** The entries of `arcs` whose key is k, in order. */
  function ArcsFrom(arcs: seq<Arc>, k: Node): seq<Edge> {
    if arcs == [] then [] else (if arcs[0].0 == k then [arcs[0].1] else []) + ArcsFrom(arcs[1..], k)
  }

  lemma {:induction false} ArcsFromSnoc(arcs: seq<Arc>, a: Arc, k: Node)
    ensures ArcsFrom(arcs + [a], k) == ArcsFrom(arcs, k) + (if a.0 == k then [a.1] else [])
    decreases |arcs|
  {
    if arcs == [] {
      assert ([] + [a])[1..] == [];
    } else {
      assert (arcs + [a])[0] == arcs[0];
      assert (arcs + [a])[1..] == arcs[1..] + [a];
      ArcsFromSnoc(arcs[1..], a, k);
    }
  }

  /**
    The map has a key exactly for the sources that received an entry, and
    each key's list holds exactly the entries appended under it, in order.
  */
  lemma {:induction false} GroupAt(arcs: seq<Arc>, k: Node)
    ensures k in Group(arcs) <==> exists j :: 0 <= j < |arcs| && arcs[j].0 == k
    ensures k in Group(arcs) ==> Group(arcs)[k] == ArcsFrom(arcs, k)
    ensures k !in Group(arcs) ==> ArcsFrom(arcs, k) == []
    decreases |arcs|
  {
    if arcs != [] {
      var n := |arcs| - 1;
      var pre := arcs[..n];
      GroupAt(pre, k);
      assert arcs == pre + [arcs[n]];
      ArcsFromSnoc(pre, arcs[n], k);
      assert forall j :: 0 <= j < n ==> pre[j] == arcs[j];
    }
  }

  /** The total number of entries over all adjacency lists. */
  ghost function TotalEntries(adj: Adjacency): nat
    decreases |adj|
  {
    if adj == map[] then 0
    else
      var k :| k in adj;
      assert |adj - {k}| < |adj| by {
        assert (adj - {k}).Keys == adj.Keys - {k};
        assert |adj.Keys - {k}| < |adj.Keys|;
      }
      |adj[k]| + TotalEntries(adj - {k})
  }

  lemma {:induction false} TotalEntriesRemove(adj: Adjacency, k: Node)
    requires k in adj
    ensures TotalEntries(adj) == |adj[k]| + TotalEntries(adj - {k})
    decreases |adj|
  {
    var k' :| k' in adj && TotalEntries(adj) == |adj[k']| + TotalEntries(adj - {k'});
    if k' != k {
      var a, b := adj - {k'}, adj - {k};
      assert (a - {k}) == (b - {k'});
      assert |a| < |adj| by {
        assert a.Keys == adj.Keys - {k'};
        assert |adj.Keys - {k'}| < |adj.Keys|;
      }
      assert |b| < |adj| by {
        assert b.Keys == adj.Keys - {k};
        assert |adj.Keys - {k}| < |adj.Keys|;
      }
      TotalEntriesRemove(a, k);
      TotalEntriesRemove(b, k');
    }
  }

  /** Each append adds exactly one entry to the total. */
  lemma TotalEntriesAppend(adj: Adjacency, k: Node, e: Edge)
    ensures TotalEntries(Append(adj, k, e)) == TotalEntries(adj) + 1
  {
    var adj' := Append(adj, k, e);
    TotalEntriesRemove(adj', k);
    if k in adj {
      TotalEntriesRemove(adj, k);
      assert adj' - {k} == adj - {k};
    } else {
      assert adj' - {k} == adj;
    }
  }

  /** Grouping n entries gives lists whose lengths add up to n. */
  lemma {:induction false} GroupTotal(arcs: seq<Arc>)
    ensures TotalEntries(Group(arcs)) == |arcs|
    decreases |arcs|
  {
    if arcs == [] {
    } else {
      var n := |arcs| - 1;
      GroupTotal(arcs[..n]);
      TotalEntriesAppend(Group(arcs[..n]), arcs[n].0, arcs[n].1);
    }
  }

  /** The fused graph of a parse and a `span_connection` list. */
  function GraphOf(doc: Parse, links: seq<(nat, nat)>): (g: Graph) {
    var arcs := GraphArcs(doc, links);
    Graph(Map(TokenText, Flatten(doc)), Group(arcs), |arcs|)
  }

  /**
    The token list has one entry per parsed token; the counter equals the
    total length of the adjacency lists and splits into one per non-root
    token, two per adjacent sentence pair and one per coreference link.
  */
  lemma GraphOfCounts(doc: Parse, links: seq<(nat, nat)>)
    ensures |GraphOf(doc, links).features| == |Flatten(doc)|
    ensures forall k :: 0 <= k < |Flatten(doc)| ==> GraphOf(doc, links).features[k] == Flatten(doc)[k].text
    ensures GraphOf(doc, links).numEdges == TotalEntries(GraphOf(doc, links).adj)
    ensures GraphOf(doc, links).numEdges == NonRootCount(Flatten(doc)) + 2 * PairCount(|doc|) + |links|
  {
    GroupTotal(GraphArcs(doc, links));
    DepArcsExact(Flatten(doc));
    NeighArcsShape(Boundaries(doc), PairCount(|doc|));
  }

  /** `k` has a list in the map and `e` is in it. */
  predicate HasEntry(adj: Adjacency, k: Node, e: Edge) {
    k in adj && e in adj[k]
  }

  /** An entry is in the grouped map exactly when its arc was appended. */
  lemma GroupHas(arcs: seq<Arc>, a: Arc)
    ensures HasEntry(Group(arcs), a.0, a.1) <==> a in arcs
  {
    GroupAt(arcs, a.0);
    if a in arcs {
      var j :| 0 <= j < |arcs| && arcs[j] == a;
      ArcsFromMember(arcs, j);
    }
    if HasEntry(Group(arcs), a.0, a.1) {
      ArcsFromSound(arcs, a.0, a.1);
    }
  }

  lemma {:induction false} ArcsFromSound(arcs: seq<Arc>, k: Node, e: Edge)
    requires e in ArcsFrom(arcs, k)
    ensures (k, e) in arcs
    decreases |arcs|
  {
    if arcs[0] != (k, e) {
      ArcsFromSound(arcs[1..], k, e);
    }
  }

  /** Every non-root token's entry is in its head's list (lines 124-125). */
  lemma DependencyEdges(doc: Parse, links: seq<(nat, nat)>, t: Token)
    requires t in Flatten(doc) && !IsRoot(t)
    ensures HasEntry(GraphOf(doc, links).adj, Some(t.head), Edge(Some(t.i), t.dep))
  {
    DepArcsExact(Flatten(doc));
    var j :| 0 <= j < |Flatten(doc)| && Flatten(doc)[j] == t;
    assert DepArc(t) in DepArcs(Flatten(doc));
    GroupHas(GraphArcs(doc, links), DepArc(t));
  }

  /** Both `neigh` entries of each pair of adjacent sentence roots are present (lines 128-132). */
  lemma NeighEdges(doc: Parse, links: seq<(nat, nat)>, i: nat)
    requires i < |doc| - 1
    ensures HasEntry(GraphOf(doc, links).adj, FirstRoot(doc[i]), Edge(FirstRoot(doc[i + 1]), NEIGH))
    ensures HasEntry(GraphOf(doc, links).adj, FirstRoot(doc[i + 1]), Edge(FirstRoot(doc[i]), NEIGH))
  {
    var neighs := NeighArcs(Boundaries(doc));
    NeighArcsShape(Boundaries(doc), PairCount(|doc|));
    assert neighs[2 * i] in neighs && neighs[2 * i + 1] in neighs;
    GroupHas(GraphArcs(doc, links), neighs[2 * i]);
    GroupHas(GraphArcs(doc, links), neighs[2 * i + 1]);
  }

  /** Each link puts a `coref` entry in the mention head's list pointing at the cluster head (lines 134-140). */
  lemma CorefEdges(doc: Parse, links: seq<(nat, nat)>, l: (nat, nat))
    requires l in links
    ensures HasEntry(GraphOf(doc, links).adj, Some(l.0), Edge(Some(l.1), COREF))
  {
    var j :| 0 <= j < |links| && links[j] == l;
    assert Map(CorefArc, links)[j] == CorefArc(l);
    GroupHas(GraphArcs(doc, links), CorefArc(l));
  }

  /** `(k, e)` is the entry of a non-root token of the parse under its head. */
  ghost predicate DependencyEntry(doc: Parse, k: Node, e: Edge) {
    exists t :: t in Flatten(doc) && !IsRoot(t) && (k, e) == DepArc(t)
  }

  /** A `neigh` entry between the roots of adjacent sentences, in one direction or the other. */
  predicate NeighEntry(b: seq<Node>, n: nat, a: Arc)
    requires n == 0 || n < |b|
  {
    exists i :: 0 <= i < n && (a == (b[i], Edge(b[i + 1], NEIGH)) || a == (b[i + 1], Edge(b[i], NEIGH)))
  }

  /** The `coref` entry of a link. */
  ghost predicate CorefEntry(links: seq<(nat, nat)>, k: Node, e: Edge) {
    exists l :: l in links && (k, e) == CorefArc(l)
  }

  /** The map holds nothing else: every entry is a dependency, a `neigh` or a `coref` entry. */
  lemma OnlyTheseEdges(doc: Parse, links: seq<(nat, nat)>, k: Node, e: Edge)
    requires HasEntry(GraphOf(doc, links).adj, k, e)
    ensures DependencyEntry(doc, k, e) || NeighEntry(Boundaries(doc), PairCount(|doc|), (k, e)) || CorefEntry(links, k, e)
  {
    var a := (k, e);
    GroupHas(GraphArcs(doc, links), a);
    assert a in DepArcs(Flatten(doc)) || a in NeighArcs(Boundaries(doc)) || a in Map(CorefArc, links);
    if a in DepArcs(Flatten(doc)) {
      FromDependency(Flatten(doc), a);
    } else if a in NeighArcs(Boundaries(doc)) {
      NeighArcsMember(Boundaries(doc), PairCount(|doc|), a);
    } else {
      FromCoref(links, a);
    }
  }

  lemma FromDependency(ts: seq<Token>, a: Arc)
    requires a in DepArcs(ts)
    ensures exists t :: t in ts && !IsRoot(t) && a == DepArc(t)
  {
    DepArcsExact(ts);
    var j :| 0 <= j < |ts| && !IsRoot(ts[j]) && a == DepArc(ts[j]);
    assert ts[j] in ts;
  }

  lemma FromCoref(links: seq<(nat, nat)>, a: Arc)
    requires a in Map(CorefArc, links)
    ensures exists l :: l in links && a == CorefArc(l)
  {
    var j :| 0 <= j < |links| && Map(CorefArc, links)[j] == a;
    assert links[j] in links;
  }

  lemma {:induction false} NeighArcsMember(b: seq<Node>, n: nat, a: Arc)
    requires n == 0 || n < |b|
    requires a in NeighArcsUpTo(b, n)
    ensures NeighEntry(b, n, a)
  {
    if a !in NeighPair(b[n - 1], b[n]) {
      NeighArcsMember(b, n - 1, a);
      var i :| 0 <= i < n - 1 && (a == (b[i], Edge(b[i + 1], NEIGH)) || a == (b[i + 1], Edge(b[i], NEIGH)));
      assert 0 <= i < n;
    } else {
      assert 0 <= n - 1 < n;
    }
  }

  lemma {:induction false} ArcsFromMember(arcs: seq<Arc>, j: nat)
    requires j < |arcs|
    ensures arcs[j].1 in ArcsFrom(arcs, arcs[j].0)
    decreases j
  {
    if j > 0 {
      ArcsFromMember(arcs[1..], j - 1);
    }
  }

  /**
    The sentence loop (lines 120-126): each sentence's root joins
    `boundary_nodes`, each token's text joins `g_features`, and each non-root
    token appends its entry under its head.
  */
  method AddParse(doc: Parse) returns (boundaryNodes: seq<Node>, features: seq<string>, depTree: Adjacency, numEdges: nat)
    ensures boundaryNodes == Boundaries(doc)
    ensures features == Map(TokenText, Flatten(doc))
    ensures depTree == Group(DepArcs(Flatten(doc))) && numEdges == |DepArcs(Flatten(doc))|
  {
    boundaryNodes, features, depTree, numEdges := [], [], map[], 0;
    var s := 0;
    while s < |doc|
      invariant 0 <= s <= |doc|
      invariant boundaryNodes == Map(FirstRoot, doc[..s])
      invariant features == Map(TokenText, Flatten(doc[..s]))
      invariant depTree == Group(DepArcs(Flatten(doc[..s]))) && numEdges == |DepArcs(Flatten(doc[..s]))|
    {
      var root := HeadOfSentence(doc[s]);
      assert Map(FirstRoot, doc[..s + 1]) == boundaryNodes + [root] by {
        assert doc[..s + 1] == doc[..s] + [doc[s]];
        MapSnoc(FirstRoot, doc[..s], doc[s]);
      }
      boundaryNodes := boundaryNodes + [root];
      ghost var before := Flatten(doc[..s]);
      features, depTree, numEdges := AddSentence(before, doc[s], features, depTree, numEdges);
      assert Flatten(doc[..s + 1]) == before + doc[s] by {
        FlattenPrefix(doc, s);
      }
      s := s + 1;
    }
    assert doc[..s] == doc;
  }

  /** The inner loop of lines 122-126 over one sentence, after the tokens `seen` of the earlier ones. */
  method AddSentence(ghost seen: seq<Token>, sentence: Sentence, features: seq<string>, depTree: Adjacency, numEdges: nat)
    returns (features': seq<string>, depTree': Adjacency, numEdges': nat)
    requires features == Map(TokenText, seen)
    requires depTree == Group(DepArcs(seen)) && numEdges == |DepArcs(seen)|
    ensures features' == Map(TokenText, seen + sentence)
    ensures depTree' == Group(DepArcs(seen + sentence)) && numEdges' == |DepArcs(seen + sentence)|
  {
    features', depTree', numEdges' := features, depTree, numEdges;
    ghost var arcs := DepArcs(seen);
    assert seen + sentence[..0] == seen;
    var k := 0;
    while k < |sentence|
      invariant 0 <= k <= |sentence|
      invariant features' == Map(TokenText, seen + sentence[..k])
      invariant arcs == DepArcs(seen + sentence[..k])
      invariant depTree' == Group(arcs) && numEdges' == |arcs|
    {
      var each := sentence[k];
      TokenStep(seen, sentence, k);
      features' := features' + [each.text];
      if each.i != each.head {
        GroupSnoc(arcs, DepArc(each));
        depTree' := Append(depTree', Some(each.head), Edge(Some(each.i), each.dep));
        arcs := arcs + [DepArc(each)];
        numEdges' := numEdges' + 1;
      }
      k := k + 1;
    }
    assert sentence[..k] == sentence;
  }

  lemma TokenStep(seen: seq<Token>, sentence: Sentence, k: nat)
    requires k < |sentence|
    ensures Map(TokenText, seen + sentence[..k + 1]) == Map(TokenText, seen + sentence[..k]) + [sentence[k].text]
    ensures DepArcs(seen + sentence[..k + 1]) ==
      DepArcs(seen + sentence[..k]) + (if IsRoot(sentence[k]) then [] else [DepArc(sentence[k])])
  {
    assert seen + sentence[..k + 1] == (seen + sentence[..k]) + [sentence[k]];
    MapSnoc(TokenText, seen + sentence[..k], sentence[k]);
    DepArcsSnoc(seen + sentence[..k], sentence[k]);
  }

  /** The boundary loop (lines 128-132): both `neigh` entries for each adjacent pair of roots. */
  method AddNeighbours(boundaryNodes: seq<Node>, depTree: Adjacency, numEdges: nat, ghost arcs: seq<Arc>)
    returns (depTree': Adjacency, numEdges': nat)
    requires depTree == Group(arcs) && numEdges == |arcs|
    ensures depTree' == Group(arcs + NeighArcs(boundaryNodes))
    ensures numEdges' == |arcs + NeighArcs(boundaryNodes)|
  {
    depTree', numEdges' := depTree, numEdges;
    ghost var done := arcs;
    var i := 0;
    while i < |boundaryNodes| - 1
      invariant 0 <= i <= PairCount(|boundaryNodes|)
      invariant done == arcs + NeighArcsUpTo(boundaryNodes, i)
      invariant depTree' == Group(done) && numEdges' == |done|
    {
      var a, b := boundaryNodes[i], boundaryNodes[i + 1];
      ghost var forth, back := (a, Edge(b, NEIGH)), (b, Edge(a, NEIGH));
      GroupSnoc(done, forth);
      depTree' := Append(depTree', a, Edge(b, NEIGH));
      GroupSnoc(done + [forth], back);
      depTree' := Append(depTree', b, Edge(a, NEIGH));
      assert done + [forth] + [back] == arcs + NeighArcsUpTo(boundaryNodes, i + 1) by {
        NeighStep(boundaryNodes, i);
      }
      done := done + [forth] + [back];
      numEdges' := numEdges' + 2;
      i := i + 1;
    }
  }

  /** The coreference loop (lines 134-140): one `coref` entry per `span_connection` pair. */
  method AddCoreferences(links: seq<(nat, nat)>, depTree: Adjacency, numEdges: nat, ghost arcs: seq<Arc>)
    returns (depTree': Adjacency, numEdges': nat)
    requires depTree == Group(arcs) && numEdges == |arcs|
    ensures depTree' == Group(arcs + Map(CorefArc, links))
    ensures numEdges' == |arcs + Map(CorefArc, links)|
  {
    depTree', numEdges' := depTree, numEdges;
    ghost var done := arcs;
    var j := 0;
    while j < |links|
      invariant 0 <= j <= |links|
      invariant done == arcs + Map(CorefArc, links[..j])
      invariant depTree' == Group(done) && numEdges' == |done|
    {
      var tup := links[j];
      assert links[..j + 1] == links[..j] + [tup];
      MapSnoc(CorefArc, links[..j], tup);
      GroupSnoc(done, CorefArc(tup));
      depTree' := Append(depTree', Some(tup.0), Edge(Some(tup.1), COREF));
      done := done + [CorefArc(tup)];
      numEdges' := numEdges' + 1;
      j := j + 1;
    }
    assert links[..j] == links;
  }

  /** Lines 113-146: the parse part, then the `neigh` and `coref` entries, into one map and one counter. */
  method AssembleGraph(doc: Parse, links: seq<(nat, nat)>) returns (g: Graph)
    ensures g == GraphOf(doc, links)
    ensures g.numEdges == TotalEntries(g.adj)
  {
    var boundaryNodes, features, depTree, numEdges := AddParse(doc);
    ghost var arcs := DepArcs(Flatten(doc));
    depTree, numEdges := AddNeighbours(boundaryNodes, depTree, numEdges, arcs);
    arcs := arcs + NeighArcs(boundaryNodes);
    depTree, numEdges := AddCoreferences(links, depTree, numEdges, arcs);
    arcs := arcs + Map(CorefArc, links);
    assert arcs == GraphArcs(doc, links);
    GroupTotal(arcs);
    g := Graph(features, depTree, numEdges);
  }

  // ---------------------------------------------------------------------------
  // extract_sent_coref_dep_tree and the driver
  // ---------------------------------------------------------------------------

  /** The graph of the empty text. */
  const EMPTY_GRAPH: Graph := Graph([], map[], 0)

  /** The fusion once the prediction is known: cluster loop, then the parse of the predicted tokens. */
  function Fuse(p: Prediction, regexParse: string -> Parse, doc: Parse): Result<Graph, GraphError> {
    match CorefLinks(p.clusters, SourceRules(p.document, regexParse))
    case Failure(e) => Failure(e)
    case Success(sc) => Success(GraphOf(doc, sc.links))
  }

  /**
    extract_sent_coref_dep_tree against the cache contents `entries`: the
    empty text short-cuts; otherwise the prediction comes from the cache or
    the predictor, and the spaCy pipeline parses the predicted tokens.
  */
  function Extraction(entries: map<string, Prediction>, predict: string -> Prediction,
                      regexParse: string -> Parse, tagParse: seq<string> -> Parse, text: string): (r: Result<Graph, GraphError>)
  {
    if |text| == 0 then Success(EMPTY_GRAPH)
    else
      var p := if text in entries then entries[text] else predict(text);
      Fuse(p, regexParse, tagParse(p.document))
  }

  /**
    extract_sent_coref_dep_tree. The parser's whitespace tokenizer asks the
    same cache for the same text, which it holds by then.
  */
  method ExtractSentCorefDepTree(cache: SingleEntryCache<string, Prediction>, predict: string -> Prediction,
                                 regexParse: string -> Parse, tagParse: seq<string> -> Parse, text: string)
    returns (r: Result<Graph, GraphError>)
    requires cache.Valid()
    modifies cache
    ensures cache.Valid()
    ensures r == Extraction(old(cache.entries), predict, regexParse, tagParse, text)
    ensures |text| == 0 ==> cache.entries == old(cache.entries) && cache.calls == old(cache.calls)
    ensures |text| > 0 ==>
      cache.entries == map[text := if text in old(cache.entries) then old(cache.entries)[text] else predict(text)]
    ensures |text| > 0 ==> cache.calls == old(cache.calls) + (if text in old(cache.entries) then [] else [text])
    ensures old(cache.Coherent(predict)) ==> cache.Coherent(predict)
  {
    if |text| == 0 {
      return Success(EMPTY_GRAPH);
    }
    var prediction, hit := cache.Lookup(text, predict);
    var connections := CorefConnections(prediction.clusters, prediction.document, regexParse);
    if connections.Failure? {
      return Failure(connections.error);
    }
    var tokenized, again := cache.Lookup(text, predict);
    var doc := tagParse(tokenized.document);
    var g := AssembleGraph(doc, connections.value);
    return Success(g);
  }

  /** A stored prediction that is the predictor's own answer makes the cache invisible. */
  lemma ExtractionIgnoresCoherentCache(entries: map<string, Prediction>, predict: string -> Prediction,
                                       regexParse: string -> Parse, tagParse: seq<string> -> Parse, text: string)
    requires forall k :: k in entries ==> entries[k] == predict(k)
    ensures Extraction(entries, predict, regexParse, tagParse, text) == Extraction(map[], predict, regexParse, tagParse, text)
  {
  }

  /** The driver's abort when the split input and the token list differ in length. */
  function CheckTokenCount(tokens: seq<string>, extracted: Result<Graph, GraphError>): Result<Graph, GraphError> {
    match extracted
    case Failure(e) => Failure(e)
    case Success(g) =>
      if |tokens| != |g.features| then Failure(TokenCountMismatch(|tokens|, |g.features|)) else Success(g)
  }

  /** The text the driver hands to the fusion: the stored tokens split on space runs and re-joined with single spaces. */
  function DriverText(toks: string): string {
    JoinSpace(SplitSpaceRuns(toks))
  }

  /** The texts the driver's instances look up in the cache, in order; an empty text returns before the lookup. */
  function Queried(dataset: seq<string>): (r: seq<string>)
    ensures |r| <= |dataset|
  {
    if dataset == [] then []
    else
      var n := |dataset| - 1;
      var t := DriverText(dataset[n]);
      Queried(dataset[..n]) + (if |t| == 0 then [] else [t])
  }

  lemma QueriedSnoc(dataset: seq<string>, k: nat)
    requires k < |dataset|
    ensures Queried(dataset[..k + 1]) ==
      Queried(dataset[..k]) + (if |DriverText(dataset[k])| == 0 then [] else [DriverText(dataset[k])])
  {
    assert dataset[..k + 1][..k] == dataset[..k];
  }

  /** One instance's lookup extends the driver's cache history by its text, unless that text is empty. */
  lemma DriverCacheStep(held: set<string>, calls: seq<string>, before: seq<string>, text: string,
                        keys: set<string>, log: seq<string>, keys': set<string>, log': seq<string>)
    requires keys == KeysAfter(held, before) && log == calls + Misses(held, before)
    requires |text| == 0 ==> keys' == keys && log' == log
    requires |text| > 0 ==> keys' == {text} && log' == log + (if text in keys then [] else [text])
    ensures var after := before + (if |text| == 0 then [] else [text]);
      keys' == KeysAfter(held, after) && log' == calls + Misses(held, after)
  {
    if |text| > 0 {
      MissesSnoc(held, before, text);
      var miss := if text in keys then [] else [text];
      assert log' == calls + (Misses(held, before) + miss);
    } else {
      assert before + [] == before;
    }
  }

  /** One dataset instance (lines 164-172): split, re-join, fuse, check the count. */
  method AnnotateInstance(cache: SingleEntryCache<string, Prediction>, predict: string -> Prediction,
                          regexParse: string -> Parse, tagParse: seq<string> -> Parse, toks: string)
    returns (r: Result<Graph, GraphError>)
    requires cache.Valid()
    modifies cache
    ensures cache.Valid()
    ensures old(cache.Coherent(predict)) ==> cache.Coherent(predict)
    ensures r == CheckTokenCount(SplitSpaceRuns(toks),
      Extraction(old(cache.entries), predict, regexParse, tagParse, DriverText(toks)))
    ensures var text := DriverText(toks);
      |text| == 0 ==> cache.entries == old(cache.entries) && cache.calls == old(cache.calls)
    ensures var text := DriverText(toks);
      |text| > 0 ==>
        && cache.entries == map[text := if text in old(cache.entries) then old(cache.entries)[text] else predict(text)]
        && cache.calls == old(cache.calls) + (if text in old(cache.entries) then [] else [text])
  {
    var tokens := SplitSpaceRuns(toks);
    var graph := ExtractSentCorefDepTree(cache, predict, regexParse, tagParse, JoinSpace(tokens));
    if graph.Failure? {
      return graph;
    }
    if |tokens| != |graph.value.features| {
      return Failure(TokenCountMismatch(|tokens|, |graph.value.features|));
    }
    return graph;
  }

  /** One instance's outcome, which a coherent cache does not affect. */
  function InstanceResult(predict: string -> Prediction, regexParse: string -> Parse,
                          tagParse: seq<string> -> Parse, toks: string): Result<Graph, GraphError>
  {
    var tokens := SplitSpaceRuns(toks);
    CheckTokenCount(tokens, Extraction(map[], predict, regexParse, tagParse, JoinSpace(tokens)))
  }

  /**
    An accepted graph has one token per space-separated token of the input,
    which is also one per token of the single-spaced text it was built from.
  */
  lemma AcceptedGraphMatchesText(predict: string -> Prediction, regexParse: string -> Parse,
                                 tagParse: seq<string> -> Parse, toks: string)
    requires InstanceResult(predict, regexParse, tagParse, toks).Success?
    ensures |InstanceResult(predict, regexParse, tagParse, toks).value.features| == |SplitSpaceRuns(toks)|
    ensures |InstanceResult(predict, regexParse, tagParse, toks).value.features|
      == |SplitSpaceRuns(JoinSpace(SplitSpaceRuns(toks)))|
  {
    SplitJoinSplit(toks);
  }

  /** An instance whose token string is empty always aborts: one split token against an empty graph. */
  lemma EmptyTokensAbort(predict: string -> Prediction, regexParse: string -> Parse, tagParse: seq<string> -> Parse)
    ensures InstanceResult(predict, regexParse, tagParse, "") == Failure(TokenCountMismatch(1, 0))
  {
    assert SplitSpaceRuns("") == [""];
  }

  /** `InstanceResult` as the body of the driver's loop. */
  function InstanceOutcome(predict: string -> Prediction, regexParse: string -> Parse,
                           tagParse: seq<string> -> Parse): string -> Result<Graph, GraphError>
  {
    toks => InstanceResult(predict, regexParse, tagParse, toks)
  }

  /**
    Instance k of the `__main__` loop: its outcome does not depend on the
    coherent cache, and the cache history grows by its text.
  */
  method AnnotateNext(cache: SingleEntryCache<string, Prediction>, predict: string -> Prediction,
                      regexParse: string -> Parse, tagParse: seq<string> -> Parse, dataset: seq<string>, k: nat,
                      ghost held: set<string>, ghost calls: seq<string>)
    returns (graph: Result<Graph, GraphError>)
    requires k < |dataset|
    requires cache.Valid() && cache.Coherent(predict)
    requires cache.entries.Keys == KeysAfter(held, Queried(dataset[..k]))
    requires cache.calls == calls + Misses(held, Queried(dataset[..k]))
    modifies cache
    ensures cache.Valid() && cache.Coherent(predict)
    ensures graph == InstanceOutcome(predict, regexParse, tagParse)(dataset[k])
    ensures cache.entries.Keys == KeysAfter(held, Queried(dataset[..k + 1]))
    ensures cache.calls == calls + Misses(held, Queried(dataset[..k + 1]))
  {
    ExtractionIgnoresCoherentCache(cache.entries, predict, regexParse, tagParse, DriverText(dataset[k]));
    ghost var keys, log := cache.entries.Keys, cache.calls;
    graph := AnnotateInstance(cache, predict, regexParse, tagParse, dataset[k]);
    QueriedSnoc(dataset, k);
    DriverCacheStep(held, calls, Queried(dataset[..k]), DriverText(dataset[k]), keys, log, cache.entries.Keys, cache.calls);
  }

  /**
    The `__main__` loop: instances in order, stopping the whole run at the
    first exception; what that means is `GatherSucceeds`, `GatherValues`
    and `GatherFirstError` for this loop body.
  */
  method AnnotateDataset(cache: SingleEntryCache<string, Prediction>, predict: string -> Prediction,
                         regexParse: string -> Parse, tagParse: seq<string> -> Parse, dataset: seq<string>)
    returns (r: Result<seq<Graph>, GraphError>)
    requires cache.Valid() && cache.Coherent(predict)
    modifies cache
    ensures cache.Valid() && cache.Coherent(predict)
    ensures r == Gather(dataset, InstanceOutcome(predict, regexParse, tagParse))
    ensures var run := Queried(dataset[..Attempted(dataset, InstanceOutcome(predict, regexParse, tagParse))]);
      && cache.entries.Keys == KeysAfter(old(cache.entries.Keys), run)
      && cache.calls == old(cache.calls) + Misses(old(cache.entries.Keys), run)
  {
    ghost var outcome := InstanceOutcome(predict, regexParse, tagParse);
    ghost var held, calls := cache.entries.Keys, cache.calls;
    var allInstances: seq<Graph> := [];
    var k := 0;
    while k < |dataset|
      invariant 0 <= k <= |dataset|
      invariant cache.Valid() && cache.Coherent(predict)
      invariant Gather(dataset[..k], outcome) == Success(allInstances)
      invariant cache.entries.Keys == KeysAfter(held, Queried(dataset[..k]))
      invariant cache.calls == calls + Misses(held, Queried(dataset[..k]))
    {
      var graph := AnnotateNext(cache, predict, regexParse, tagParse, dataset, k, held, calls);
      if graph.Failure? {
        GatherStops(dataset, outcome, k);
        AttemptedStops(dataset, outcome, k);
        return Failure(graph.error);
      }
      GatherExtend(dataset, outcome, k, allInstances, graph.value);
      allInstances := allInstances + [graph.value];
      k := k + 1;
    }
    assert dataset[..k] == dataset;
    return Success(allInstances);
  }
}
