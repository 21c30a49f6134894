/**
 * The vocabulary the content script's operations are specified in: what an
 * operation did to snapshots of the text nodes and form controls it may
 * change, and which mutation records its writes queued. Every operation
 * reads, applies the rule, compares and writes only on change, and the rule
 * is idempotent, so these effects compose: doing a node twice is doing it
 * once, and the second time writes nothing.
 */
module Effects {
  import opened Dom
  import opened Eszett
  import opened Selection

  /** From snapshot `v0` to snapshot `now` of the same text nodes, exactly the nodes of `hit` had the rule applied. */
  ghost predicate Swept(now: map<TextNode, string>, v0: map<TextNode, string>, hit: set<TextNode>) {
    && now.Keys == v0.Keys
    && forall t | t in v0 :: now[t] == if t in hit then ReplaceEszett(v0[t]) else v0[t]
  }

  /** The nodes of `hit` whose data in `v0` the rule would change. */
  ghost function DirtyIn(hit: set<TextNode>, v0: map<TextNode, string>): set<TextNode> {
    set t | t in hit && t in v0 && !Clean(v0[t])
  }

  /**
   * The queue `rs` is `r0` followed by `characterData` records only, and
   * these target exactly the nodes of `written`.
   */
  ghost predicate QueuedFrom(rs: seq<Mutation>, r0: seq<Mutation>, written: set<TextNode>) {
    && |r0| <= |rs|
    && rs[..|r0|] == r0
    && (forall i | |r0| <= i < |rs| :: rs[i].CharacterData?)
    && Written(rs[|r0|..]) == written
  }

  /**
   * Sweeping `a` and then `b` is sweeping `a + b` once, and the second sweep
   * writes only the nodes of `b` the first one did not reach: the rule is
   * idempotent, so reprocessing a node is harmless and silent.
   */
  lemma SweptCompose(v0: map<TextNode, string>, v1: map<TextNode, string>, v2: map<TextNode, string>,
                     a: set<TextNode>, b: set<TextNode>)
    requires Swept(v1, v0, a) && Swept(v2, v1, b)
    ensures Swept(v2, v0, a + b)
    ensures DirtyIn(a, v0) + DirtyIn(b, v1) == DirtyIn(a + b, v0)
  {
    forall t | t in v0
      ensures v2[t] == (if t in a + b then ReplaceEszett(v0[t]) else v0[t])
      ensures t in a ==> Clean(v1[t])
    {
      ReplaceEszettIdempotent(v0[t]);
      ReplaceEszettIsClean(v0[t]);
    }
  }

  lemma QueuedCompose(r0: seq<Mutation>, r1: seq<Mutation>, r2: seq<Mutation>, w1: set<TextNode>, w2: set<TextNode>)
    requires QueuedFrom(r1, r0, w1) && QueuedFrom(r2, r1, w2)
    ensures QueuedFrom(r2, r0, w1 + w2)
  {
    assert r2[|r0|..] == r1[|r0|..] + r2[|r1|..];
    WrittenAppend(r1[|r0|..], r2[|r1|..]);
  }

  /** A queue that grew by records writing nothing did not grow. */
  lemma QueuedNothing(rs: seq<Mutation>, r0: seq<Mutation>)
    requires QueuedFrom(rs, r0, {})
    ensures rs == r0
  {
    assert |rs| > |r0| ==> rs[|r0|..][0].node in Written(rs[|r0|..]);
  }

  lemma QueuedSame(rs: seq<Mutation>)
    ensures QueuedFrom(rs, rs, {})
  {
    assert rs[|rs|..] == [];
  }

  /** The queue after one record-producing write of `node`, or none when its data `v0[node]` was clean. */
  lemma QueuedOne(r0: seq<Mutation>, node: TextNode, v0: map<TextNode, string>)
    requires node in v0
    ensures QueuedFrom(r0 + if Clean(v0[node]) then [] else [CharacterData(node)], r0, DirtyIn({node}, v0))
  {
    var rs := r0 + if Clean(v0[node]) then [] else [CharacterData(node)];
    assert rs[|r0|..] == if Clean(v0[node]) then [] else [CharacterData(node)];
    WrittenOne(node);
  }

  /** From snapshot `c0` to snapshot `now` of the same controls, exactly the controls of `hit` were edited. */
  ghost predicate Edits(now: map<FormControl, ControlState>, c0: map<FormControl, ControlState>, hit: set<FormControl>) {
    && now.Keys == c0.Keys
    && forall c | c in c0 :: now[c] == if c in hit then EditedState(c0[c]) else c0[c]
  }

  /** Editing `a` and then `b` is editing `a + b` once. */
  lemma EditsCompose(c0: map<FormControl, ControlState>, c1: map<FormControl, ControlState>, c2: map<FormControl, ControlState>,
                     a: set<FormControl>, b: set<FormControl>)
    requires Edits(c1, c0, a) && Edits(c2, c1, b)
    ensures Edits(c2, c0, a + b)
  {
    forall c | c in c0 ensures c2[c] == if c in a + b then EditedState(c0[c]) else c0[c] {
      EditedIdempotent(c0[c]);
    }
  }

  /** Before an operation has done anything. */
  lemma Nothing(v0: map<TextNode, string>, c0: map<FormControl, ControlState>, rs: seq<Mutation>)
    ensures Swept(v0, v0, {}) && Edits(c0, c0, {})
    ensures QueuedFrom(rs, rs, DirtyIn({}, v0))
  {
    QueuedSame(rs);
  }

  /**
   * An operation that swept `a` (from `v0` to `v1`) and then `b` (from
   * `v1` to `v2`) swept `a + b`, and the queue holds records for the nodes
   * of `a + b` that were dirty at the start.
   */
  lemma SweepThen(v0: map<TextNode, string>, v1: map<TextNode, string>, v2: map<TextNode, string>,
                  r0: seq<Mutation>, r1: seq<Mutation>, r2: seq<Mutation>, a: set<TextNode>, b: set<TextNode>)
    requires Swept(v1, v0, a) && QueuedFrom(r1, r0, DirtyIn(a, v0))
    requires Swept(v2, v1, b) && QueuedFrom(r2, r1, DirtyIn(b, v1))
    ensures Swept(v2, v0, a + b) && QueuedFrom(r2, r0, DirtyIn(a + b, v0))
  {
    SweptCompose(v0, v1, v2, a, b);
    QueuedCompose(r0, r1, r2, DirtyIn(a, v0), DirtyIn(b, v1));
  }

  /**
   * The script observes its own writes: after a sweep of `hit` from `v0`
   * to `v1`, sweeping again the nodes it wrote changes nothing and writes
   * nothing, so the observer does not feed itself.
   */
  lemma OwnWritesSettle(v0: map<TextNode, string>, v1: map<TextNode, string>, v2: map<TextNode, string>, hit: set<TextNode>)
    requires Swept(v1, v0, hit)
    requires Swept(v2, v1, DirtyIn(hit, v0))
    ensures v2 == v1
    ensures DirtyIn(DirtyIn(hit, v0), v1) == {}
  {
    forall t | t in DirtyIn(hit, v0) ensures Clean(v1[t]) && v2[t] == v1[t] {
      ReplaceEszettIsClean(v0[t]);
      ReplaceEszettFixesClean(v1[t]);
    }
  }
}
