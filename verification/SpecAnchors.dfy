/** The cross-reference pass over the specification documents: xtask/src/spec.rs. */
module SpecAnchors {
  import opened Wrappers
  import opened Text
  import opened Sorting

  datatype Doc = Doc(name: string, body: string)

  const NS_OWNERS: seq<(string, string)> := [
    ("gram", "01-grammar.md"), ("diag", "01-grammar.md"), ("mem", "02-memory-model.md"),
    ("conc", "03-concurrency.md"), ("abi", "04-abi.md"), ("conf", "05-conformance.md"),
    ("proto", "06-differential-protocol.md"), ("sched", "07-schedule-points.md"),
    ("pkg", "08-package.md"), ("ct", "09-constant-time.md"), ("type", "10-types.md"),
    ("os", "11-os.md"), ("exec", "05-conformance.md")
  ]

  function Lookup(table: seq<(string, string)>, ns: string): Option<string> {
    if table == [] then None
    else if table[0].0 == ns then Some(table[0].1)
    else Lookup(table[1..], ns)
  }

  /** The document that owns an anchor's namespace, if the namespace is registered. */
  function OwnerOf(anchor: string): Option<string> {
    Lookup(NS_OWNERS, anchor[..Find(anchor, '.')])
  }

  // ------------------------------------------------- what an anchor is --

  predicate AnchorChar(c: char) {
    'a' <= c <= 'z' || '0' <= c <= '9' || c == '.' || c == '-' || c == '_'
  }

  predicate Dotted(inner: string) {
    '.' in inner && ' ' !in inner && forall c | c in inner :: AnchorChar(c)
  }

  function Bracketed(a: string): string {
    "[" + a + "]"
  }

  /** The anchor whose `[` is at `p`: what lies before the next `]`, if dotted. */
  function AnchorAt(body: string, p: nat): Option<string>
    requires p < |body|
  {
    var close := FindFrom(body, ']', p);
    if body[p] == '[' && close < |body| && Dotted(body[p + 1..close])
    then Some(body[p + 1..close]) else None
  }

  /** An anchor and the position of its `[`. */
  datatype Hit = Hit(at: nat, anchor: string)

  /** The anchors that open at `i` or later, in order. */
  function Hits(body: string, i: nat): (hits: seq<Hit>)
    requires i <= |body|
    ensures forall k :: 0 <= k < |hits| ==>
              i <= hits[k].at < |body| && AnchorAt(body, hits[k].at) == Some(hits[k].anchor)
    decreases |body| - i
  {
    hide AnchorAt;
    if i == |body| then []
    else match AnchorAt(body, i)
      case Some(a) => [Hit(i, a)] + Hits(body, i + 1)
      case None => Hits(body, i + 1)
  }

  /** The hits come in the order of their positions, each position once. */
  lemma {:induction false} HitsInOrder(body: string, i: nat)
    requires i <= |body|
    ensures forall a, b :: 0 <= a < b < |Hits(body, i)| ==> Hits(body, i)[a].at < Hits(body, i)[b].at
    decreases |body| - i
  {
    hide AnchorAt;
    if i < |body| {
      HitsInOrder(body, i + 1);
    }
  }

  function Names(hits: seq<Hit>): seq<string> {
    seq(|hits|, k requires 0 <= k < |hits| => hits[k].anchor)
  }

  /** Every anchor of a document, in order of occurrence. */
  function Anchors(body: string): seq<string> {
    Names(Hits(body, 0))
  }

  lemma {:induction false} HitsAreComplete(body: string, i: nat, p: nat, a: string)
    requires i <= p < |body| && AnchorAt(body, p) == Some(a)
    ensures Hit(p, a) in Hits(body, i)
    decreases p - i
  {
    if i < p {
      HitsAreComplete(body, i + 1, p, a);
    }
  }

  /** `AnchorAt` finds exactly the dotted texts in brackets. */
  lemma AnchorAtIsBracketed(body: string, p: nat, a: string)
    requires p < |body|
    ensures AnchorAt(body, p) == Some(a) <==> Dotted(a) && OccursAt(body, Bracketed(a), p)
  {
    if Dotted(a) && OccursAt(body, Bracketed(a), p) {
      var s := body[p..p + |a| + 2];
      assert s == Bracketed(a);
      assert forall i :: p < i <= p + |a| ==> body[i] == s[i - p] == a[i - p - 1] && a[i - p - 1] in a;
      assert body[p] == s[0] && body[p + |a| + 1] == s[|a| + 1];
      FindFromIs(body, ']', p, p + |a| + 1);
      assert body[p + 1..p + |a| + 1] == a;
    }
    if AnchorAt(body, p) == Some(a) {
      assert body[p..p + |a| + 2] == Bracketed(a);
    }
  }

  /** The anchors in order are exactly the bracketed dotted texts: each hit is
      one, and each one is a hit. */
  lemma HitsAreOccurrences(body: string, p: nat, a: string)
    ensures Hit(p, a) in Hits(body, 0) <==> Dotted(a) && OccursAt(body, Bracketed(a), p)
  {
    if p < |body| {
      AnchorAtIsBracketed(body, p, a);
      if AnchorAt(body, p) == Some(a) {
        HitsAreComplete(body, 0, p, a);
      }
    }
  }

  /** A dotted text is among a document's anchors iff the document has it in brackets. */
  lemma AnchorsAreOccurrences(body: string, a: string)
    ensures a in Anchors(body) <==> Dotted(a) && Contains(body, Bracketed(a))
  {
    hide Dotted, OccursAt, Bracketed, Hits, AnchorAt;
    var hits := Hits(body, 0);
    if a in Anchors(body) {
      var k :| 0 <= k < |hits| && hits[k].anchor == a;
      assert hits[k] in hits && hits[k] == Hit(hits[k].at, a);
      HitsAreOccurrences(body, hits[k].at, a);
    }
    if Dotted(a) && Contains(body, Bracketed(a)) {
      var p :| 0 <= p <= |body| && OccursAt(body, Bracketed(a), p);
      HitsAreOccurrences(body, p, a);
      var k :| 0 <= k < |hits| && hits[k] == Hit(p, a);
      assert Anchors(body)[k] == a;
    }
  }

  // -------------------------------------------------------- the scanner --

  lemma {:induction false} NoneOpensBefore(body: string, i: nat, j: nat)
    requires i <= j <= |body|
    requires forall p :: i <= p < j ==> AnchorAt(body, p) == None
    ensures Hits(body, i) == Hits(body, j)
    decreases j - i
  {
    hide AnchorAt;
    if i < j {
      NoneOpensBefore(body, i + 1, j);
    }
  }

  lemma OpensOnlyAtBracket(body: string, p: nat)
    requires p < |body| && (body[p] != '[' || FindFrom(body, ']', p) == |body|)
    ensures AnchorAt(body, p) == None
  {
  }

  /** Before the next `[` no anchor opens, and with no `]` ahead none does. */
  lemma NoneOpensOutside(body: string, i: nat, j: nat, open: nat)
    requires i <= open <= j <= |body|
    requires forall p :: i <= p < open ==> body[p] != '['
    requires open < j ==> j == |body| == FindFrom(body, ']', open)
    ensures Hits(body, i) == Hits(body, j)
  {
    forall p | i <= p < j ensures AnchorAt(body, p) == None {
      if open <= p {
        FindFromIs(body, ']', p, |body|);
      }
      OpensOnlyAtBracket(body, p);
    }
    NoneOpensBefore(body, i, j);
  }

  lemma AnchorHere(body: string, open: nat, close: nat)
    requires open < close < |body| && body[open] == '[' && FindFrom(body, ']', open) == close
    ensures AnchorAt(body, open)
         == if Dotted(body[open + 1..close]) then Some(body[open + 1..close]) else None
  {
  }

  /** The brackets of an anchor hold no other `[`. */
  lemma NoneOpensInside(body: string, open: nat, close: nat)
    requires open < close < |body| && body[close] == ']' && Dotted(body[open + 1..close])
    ensures forall p :: open < p <= close ==> AnchorAt(body, p) == None
  {
    var inner := body[open + 1..close];
    forall p | open < p <= close ensures AnchorAt(body, p) == None {
      assert p < close ==> body[p] == inner[p - open - 1] && inner[p - open - 1] in inner;
      OpensOnlyAtBracket(body, p);
    }
  }

  /** So the scan may resume past them. */
  lemma ResumePastAnchor(body: string, open: nat, close: nat, inner: string, found: seq<Hit>)
    requires open < close < |body| && AnchorAt(body, open) == Some(inner)
    requires forall p :: open < p <= close ==> AnchorAt(body, p) == None
    ensures found + Hits(body, open) == found + [Hit(open, inner)] + Hits(body, close + 1)
    ensures Names(found + [Hit(open, inner)]) == Names(found) + [inner]
  {
    hide AnchorAt;
    NoneOpensBefore(body, open + 1, close + 1);
  }

  method AnchorsIn(body: string) returns (out: seq<string>)
    ensures out == Anchors(body)
  {
    hide AnchorAt, Dotted, FindFrom;
    out := [];
    var i := 0;
    ghost var found: seq<Hit> := [];
    while true
      invariant i <= |body|
      invariant found + Hits(body, i) == Hits(body, 0)
      invariant out == Names(found)
      decreases |body| - i
    {
      var open := FindFrom(body, '[', i);
      if open == |body| {
        NoneOpensOutside(body, i, open, open);
        break;
      }
      var close := FindFrom(body, ']', open);
      if close == |body| {
        NoneOpensOutside(body, i, |body|, open);
        break;
      }
      NoneOpensOutside(body, i, open, open);
      AnchorHere(body, open, close);
      var inner := body[open + 1..close];
      if Dotted(inner) {
        NoneOpensInside(body, open, close);
        ResumePastAnchor(body, open, close, inner, found);
        out := out + [inner];
        found := found + [Hit(open, inner)];
        i := close + 1;
      } else {
        i := open + 1;
      }
      if i >= |body| {
        break;
      }
    }
    assert found + [] == found;
  }

  // ------------------------------------------------------ the link pass --

  /** The first document of that name. */
  function FirstBody(docs: seq<Doc>, name: string): Option<string> {
    if docs == [] then None
    else if docs[0].name == name then Some(docs[0].body)
    else FirstBody(docs[1..], name)
  }

  function MissingText(file: string, anchor: string, owner: string): string {
    file + ": [" + anchor + "] cites missing document " + owner
  }

  function DanglingText(file: string, anchor: string, owner: string): string {
    file + ": dangling cross-reference [" + anchor + "] (not defined in " + owner + ")"
  }

  /** What is wrong with `file` citing `anchor`, if anything. */
  function Complaint(docs: seq<Doc>, file: string, anchor: string): Option<string> {
    match OwnerOf(anchor)
    case None => None
    case Some(owner) =>
      match FirstBody(docs, owner)
      case None => Some(MissingText(file, anchor, owner))
      case Some(body) =>
        if Contains(body, Bracketed(anchor)) then None else Some(DanglingText(file, anchor, owner))
  }

  /** The registry gives the document the anchor's namespace: the whole anchor,
      or what a dot follows. */
  predicate Owns(owner: string, anchor: string) {
    exists entry | entry in NS_OWNERS :: entry.1 == owner && (anchor == entry.0 || entry.0 + "." <= anchor)
  }

  lemma {:induction false} LookupMeans(table: seq<(string, string)>, ns: string, owner: string)
    requires forall i, j :: 0 <= i < j < |table| ==> table[i].0 != table[j].0
    ensures Lookup(table, ns) == Some(owner) <==> (ns, owner) in table
  {
    if table != [] {
      LookupMeans(table[1..], ns, owner);
      assert table == [table[0]] + table[1..];
    }
  }

  lemma NamespacesDiffer()
    ensures forall i, j :: 0 <= i < j < |NS_OWNERS| ==> NS_OWNERS[i].0 != NS_OWNERS[j].0
  {
    var heads := ["gram", "diag", "mem", "conc", "abi", "conf", "proto", "sched", "pkg", "ct", "type", "os", "exec"];
    assert forall i :: 0 <= i < |heads| ==> NS_OWNERS[i].0 == heads[i];
    assert heads[3][3] == 'c' && heads[5][3] == 'f' && |heads[9]| == 2 && |heads[8]| == 3 && |heads[6]| == 5;
  }

  lemma NamespacesHaveNoDot()
    ensures forall entry | entry in NS_OWNERS :: '.' !in entry.0
  {
  }

  lemma HeadOf(ns: string, anchor: string)
    requires '.' !in ns
    ensures anchor[..Find(anchor, '.')] == ns <==> anchor == ns || ns + "." <= anchor
  {
    if anchor == ns {
      FindIs(anchor, '.', |ns|);
    } else if ns + "." <= anchor {
      assert forall i :: 0 <= i < |ns| ==> anchor[i] == (ns + ".")[i] == ns[i] && ns[i] in ns;
      assert anchor[|ns|] == (ns + ".")[|ns|];
      FindIs(anchor, '.', |ns|);
    }
  }

  lemma OwnerOfMeans(anchor: string, owner: string)
    ensures OwnerOf(anchor) == Some(owner) <==> Owns(owner, anchor)
  {
    NamespacesDiffer();
    NamespacesHaveNoDot();
    hide NS_OWNERS, Lookup;
    var ns := anchor[..Find(anchor, '.')];
    LookupMeans(NS_OWNERS, ns, owner);
    forall entry | entry in NS_OWNERS
      ensures ns == entry.0 <==> anchor == entry.0 || entry.0 + "." <= anchor {
      HeadOf(entry.0, anchor);
    }
    assert Owns(owner, anchor) <==> exists entry | entry in NS_OWNERS :: entry.1 == owner && ns == entry.0;
    assert forall entry | entry in NS_OWNERS && entry.1 == owner && ns == entry.0 :: entry == (ns, owner);
  }

  /** No document of that name. */
  predicate Absent(docs: seq<Doc>, name: string) {
    forall d :: 0 <= d < |docs| ==> docs[d].name != name
  }

  predicate IsFirst(docs: seq<Doc>, name: string, d: nat) {
    d < |docs| && docs[d].name == name && forall j :: 0 <= j < d ==> docs[j].name != name
  }

  lemma {:induction false} FirstBodyMeans(docs: seq<Doc>, name: string)
    ensures FirstBody(docs, name).None? <==> Absent(docs, name)
    ensures forall d: nat :: IsFirst(docs, name, d) ==> FirstBody(docs, name) == Some(docs[d].body)
  {
    if docs != [] {
      FirstBodyMeans(docs[1..], name);
      assert forall d :: 0 < d < |docs| ==> docs[d] == docs[1..][d - 1];
      forall d: nat | IsFirst(docs, name, d) ensures FirstBody(docs, name) == Some(docs[d].body) {
        if d > 0 {
          assert IsFirst(docs[1..], name, d - 1);
        }
      }
    }
  }

  /** The complaint about a citation of a registered namespace: its document is
      missing, or is there, the first of its name, and does not hold the anchor. */
  lemma ComplaintMeans(docs: seq<Doc>, file: string, anchor: string, owner: string)
    requires OwnerOf(anchor) == Some(owner)
    ensures Absent(docs, owner) ==>
              Complaint(docs, file, anchor) == Some(file + ": [" + anchor + "] cites missing document " + owner)
    ensures forall d: nat | IsFirst(docs, owner, d) ::
              (Complaint(docs, file, anchor)
               == if Contains(docs[d].body, "[" + anchor + "]") then None
                  else Some(file + ": dangling cross-reference [" + anchor + "] (not defined in " + owner + ")"))
  {
    FirstBodyMeans(docs, owner);
    hide OwnerOf, Contains;
  }

  ghost predicate Complains(docs: seq<Doc>, d: nat, k: nat, e: string) {
    d < |docs| && k < |Anchors(docs[d].body)|
    && Complaint(docs, docs[d].name, Anchors(docs[d].body)[k]) == Some(e)
  }

  /** Some citation of the first `n` documents, or of the first `m` of document `n`, is at fault. */
  ghost predicate Reported(docs: seq<Doc>, n: nat, m: nat, e: string) {
    exists d: nat, k: nat :: (d < n || (d == n && k < m)) && Complains(docs, d, k, e)
  }

  method LinkCheck(docs: seq<Doc>) returns (errors: seq<string>)
    ensures StrictlySorted(errors)
    ensures forall e :: e in errors <==> Reported(docs, |docs|, 0, e)
  {
    hide Complaint, Anchors;
    var raw: seq<string> := [];
    for d := 0 to |docs|
      invariant forall e :: e in raw <==> Reported(docs, d, 0, e)
    {
      var anchors := AnchorsIn(docs[d].body);
      ghost var before := raw;
      for k := 0 to |anchors|
        invariant forall e :: e in raw <==> Reported(docs, d, k, e)
      {
        var complaint := Complaint(docs, docs[d].name, anchors[k]);
        ReportedStep(docs, d, k, complaint);
        match complaint {
          case Some(e) => raw := raw + [e];
          case None =>
        }
      }
      forall e ensures Reported(docs, d, |anchors|, e) == Reported(docs, d + 1, 0, e) {
      }
    }
    SortedSetLists(raw);
    errors := SortedSet(raw);
  }

  lemma ReportedStep(docs: seq<Doc>, d: nat, k: nat, complaint: Option<string>)
    requires d < |docs| && k < |Anchors(docs[d].body)|
    requires complaint == Complaint(docs, docs[d].name, Anchors(docs[d].body)[k])
    ensures forall e :: Reported(docs, d, k + 1, e) <==> Reported(docs, d, k, e) || complaint == Some(e)
  {
    hide Complaint, Anchors;
    forall e ensures Reported(docs, d, k + 1, e) <==> Reported(docs, d, k, e) || complaint == Some(e) {
      if complaint == Some(e) {
        assert Complains(docs, d, k, e);
      }
    }
  }

  // ---------------------------------------------------- the anchor index --

  /** An anchor that its own namespace's document defines. */
  ghost predicate Indexed(docs: seq<Doc>, n: nat, anchor: string) {
    exists d: nat :: d < n <= |docs| && OwnerOf(anchor) == Some(docs[d].name)
                     && anchor in Anchors(docs[d].body)
  }

  method AnchorIndex(docs: seq<Doc>) returns (index: map<string, string>)
    ensures forall a :: a in index <==> Indexed(docs, |docs|, a)
    ensures forall a | a in index :: OwnerOf(a) == Some(index[a])
  {
    hide OwnerOf, Anchors;
    index := map[];
    for d := 0 to |docs|
      invariant forall a :: a in index <==> Indexed(docs, d, a)
      invariant forall a | a in index :: OwnerOf(a) == Some(index[a])
    {
      var anchors := AnchorsIn(docs[d].body);
      for k := 0 to |anchors|
        invariant forall a :: a in index <==>
                    Indexed(docs, d, a) || (OwnerOf(a) == Some(docs[d].name) && a in anchors[..k])
        invariant forall a | a in index :: OwnerOf(a) == Some(index[a])
      {
        assert anchors[..k + 1] == anchors[..k] + [anchors[k]];
        if OwnerOf(anchors[k]) == Some(docs[d].name) {
          index := index[anchors[k] := docs[d].name];
        }
      }
      assert anchors[..|anchors|] == anchors;
      forall a ensures Indexed(docs, d + 1, a) <==>
          Indexed(docs, d, a) || (OwnerOf(a) == Some(docs[d].name) && a in anchors) {
      }
    }
  }

  // ------------------------------------------------ the two, side by side --

  predicate DistinctNames(docs: seq<Doc>) {
    Distinct(DocNames(docs))
  }

  function DocNames(docs: seq<Doc>): (names: seq<string>)
    ensures |names| == |docs| && forall d :: 0 <= d < |docs| ==> names[d] == docs[d].name
  {
    seq(|docs|, d requires 0 <= d < |docs| => docs[d].name)
  }

  lemma DistinctNamesTail(docs: seq<Doc>)
    requires docs != [] && DistinctNames(docs)
    ensures DistinctNames(docs[1..]) && forall d :: 0 < d < |docs| ==> docs[d].name != docs[0].name
  {
    var names := DocNames(docs);
    assert DocNames(docs[1..]) == names[1..];
    forall d | 0 < d < |docs| ensures docs[d].name != docs[0].name {
      assert names[0] != names[d];
    }
  }

  lemma {:induction false} FirstBodyOf(docs: seq<Doc>, d: nat)
    requires d < |docs| && DistinctNames(docs)
    ensures FirstBody(docs, docs[d].name) == Some(docs[d].body)
  {
    DistinctNamesTail(docs);
    if d > 0 {
      FirstBodyOf(docs[1..], d - 1);
    }
  }

  lemma {:induction false} FirstBodyFinds(docs: seq<Doc>, name: string)
    ensures FirstBody(docs, name).Some? <==> exists d :: 0 <= d < |docs| && docs[d].name == name
    ensures FirstBody(docs, name).Some? ==>
              exists d :: 0 <= d < |docs| && docs[d] == Doc(name, FirstBody(docs, name).value)
  {
    if docs != [] && docs[0].name != name {
      FirstBodyFinds(docs[1..], name);
      assert forall d :: 0 < d < |docs| ==> docs[d] == docs[1..][d - 1];
      if FirstBody(docs, name).Some? {
        var d :| 0 <= d < |docs[1..]| && docs[1..][d] == Doc(name, FirstBody(docs, name).value);
        assert docs[d + 1] == docs[1..][d];
      }
    }
  }

  /** Every citation of a registered namespace resolves: its owner is among
      the documents, and the index has it. */
  ghost predicate Resolves(docs: seq<Doc>, anchor: string) {
    match OwnerOf(anchor)
    case None => true
    case Some(owner) =>
      (exists d :: 0 <= d < |docs| && docs[d].name == owner) && Indexed(docs, |docs|, anchor)
  }

  /** Among several documents of the owner's name the first lacks the anchor and another has it. */
  ghost predicate OnlyALaterBodyHas(docs: seq<Doc>, anchor: string) {
    var owner := OwnerOf(anchor);
    owner.Some? && FirstBody(docs, owner.value).Some?
    && !Contains(FirstBody(docs, owner.value).value, Bracketed(anchor))
    && exists d :: 0 <= d < |docs| && docs[d].name == owner.value && Contains(docs[d].body, Bracketed(anchor))
  }

  /** On any documents, what the link pass accepts the index has; and it
      refuses what the index has exactly when only a later body of the owner's
      name has the anchor. */
  lemma PassesDisagreeIff(docs: seq<Doc>, file: string, anchor: string)
    requires Dotted(anchor)
    ensures Complaint(docs, file, anchor).None? ==> Resolves(docs, anchor)
    ensures Complaint(docs, file, anchor).Some? && Resolves(docs, anchor) <==> OnlyALaterBodyHas(docs, anchor)
  {
    hide OwnerOf, Contains, Dotted, Bracketed, Anchors;
    if OwnerOf(anchor).Some? {
      var owner := OwnerOf(anchor).value;
      FirstBodyFinds(docs, owner);
      forall d: nat | d < |docs|
        ensures anchor in Anchors(docs[d].body) <==> Contains(docs[d].body, Bracketed(anchor)) {
        AnchorsAreOccurrences(docs[d].body, anchor);
      }
    }
  }

  lemma ComplaintAgainstIndex(docs: seq<Doc>, file: string, anchor: string)
    requires DistinctNames(docs) && Dotted(anchor)
    ensures Complaint(docs, file, anchor).None? <==> Resolves(docs, anchor)
  {
    hide OwnerOf, Contains, Dotted, Complaint, Resolves;
    PassesDisagreeIff(docs, file, anchor);
    forall d | 0 <= d < |docs| ensures FirstBody(docs, docs[d].name) == Some(docs[d].body) {
      FirstBodyOf(docs, d);
    }
  }

  /** `link_check` is clean iff every anchor any document cites resolves in the index. */
  lemma CleanIffIndexed(docs: seq<Doc>)
    requires DistinctNames(docs)
    ensures (forall e :: !Reported(docs, |docs|, 0, e)) <==>
            forall d, a :: 0 <= d < |docs| && a in Anchors(docs[d].body) ==> Resolves(docs, a)
  {
    hide Complaint, Resolves, Anchors;
    forall d: nat, k: nat | d < |docs| && k < |Anchors(docs[d].body)|
      ensures (forall e :: !Complains(docs, d, k, e)) <==> Resolves(docs, Anchors(docs[d].body)[k]) {
      var a := Anchors(docs[d].body)[k];
      assert a in Anchors(docs[d].body);
      AnchorsAreOccurrences(docs[d].body, a);
      ComplaintAgainstIndex(docs, docs[d].name, a);
      if Complaint(docs, docs[d].name, a).Some? {
        assert Complains(docs, d, k, Complaint(docs, docs[d].name, a).value);
      }
    }
    if forall e :: !Reported(docs, |docs|, 0, e) {
      forall d, a | 0 <= d < |docs| && a in Anchors(docs[d].body) ensures Resolves(docs, a) {
        var k: nat :| k < |Anchors(docs[d].body)| && Anchors(docs[d].body)[k] == a;
        assert forall e :: Complains(docs, d, k, e) ==> Reported(docs, |docs|, 0, e);
      }
    }
  }

  /** For any anchor of a registered namespace, two documents of its owner's
      name can set the passes apart: the index reads both, the link pass the first. */
  lemma DuplicateNamesDisagree(file: string, owner: string, anchor: string)
    requires Dotted(anchor) && OwnerOf(anchor) == Some(owner)
    ensures var docs := [Doc(owner, ""), Doc(owner, Bracketed(anchor))];
            Resolves(docs, anchor) && Complaint(docs, file, anchor).Some?
  {
    var docs := [Doc(owner, ""), Doc(owner, Bracketed(anchor))];
    ContainsItself(Bracketed(anchor));
    hide Contains, Bracketed, OwnerOf, Dotted, Complaint, Resolves;
    assert docs[1].name == owner && FirstBody(docs, owner) == Some("");
    PassesDisagreeIff(docs, file, anchor);
  }

  lemma ContainsItself(s: string)
    requires s != ""
    ensures Contains(s, s) && !Contains("", s)
  {
    assert OccursAt(s, s, 0);
  }
}
