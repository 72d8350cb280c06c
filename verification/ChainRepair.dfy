/** Parents set from key identifiers by the hourly repair, and when the walk to the root still ends. */
module ChainRepair {
  import opened Common
  import opened Rows
  import opened CaHierarchy

  // ---- parent links as a graph ----

  /** From refid to the parent's refid; the empty text stands for no parent. */
  type Links = map<string, string>

  function Up(m: Links, r: string): string { if r in m then m[r] else "" }

  function After(m: Links, r: string, n: nat): string {
    if n == 0 then r else Up(m, After(m, r, n - 1))
  }

  ghost predicate Closed(m: Links) {
    "" !in m && forall r :: r in m ==> m[r] == "" || m[r] in m
  }

  /** The walk from r comes to an end. */
  ghost predicate Ends(m: Links, r: string) {
    exists n :: After(m, r, n) == ""
  }

  ghost predicate AllEnd(m: Links) {
    forall r :: r in m ==> Ends(m, r)
  }

  predicate Returns(m: Links, r: string, n: nat) { n > 0 && r in m && After(m, r, n) == r }

  /** Some authority is its own ancestor. */
  ghost predicate Looped(m: Links) {
    exists r, n :: Returns(m, r, n)
  }

  lemma {:induction false} AfterSum(m: Links, r: string, i: nat, j: nat)
    ensures After(m, r, i + j) == After(m, After(m, r, i), j)
    decreases j
  {
    if j > 0 {
      AfterSum(m, r, i, j - 1);
      assert i + j - 1 == i + (j - 1);
    }
  }

  lemma {:induction false} AfterStaysLive(m: Links, r: string, n: nat)
    requires Closed(m) && (r == "" || r in m)
    ensures After(m, r, n) == "" || After(m, r, n) in m
    ensures r == "" ==> After(m, r, n) == ""
  {
    if n > 0 {
      AfterStaysLive(m, r, n - 1);
    }
  }

  lemma {:induction false} LoopNeverEnds(m: Links, r: string, n: nat, k: nat)
    requires Closed(m) && Returns(m, r, n)
    ensures After(m, r, k) != ""
    decreases k
  {
    if k < n {
      AfterSum(m, r, k, n - k);
      AfterStaysLive(m, "", n - k);
    } else {
      LoopNeverEnds(m, r, n, k - n);
      AfterSum(m, r, n, k - n);
    }
  }

  ghost function Visited(m: Links, r: string, n: nat): set<string> {
    if n == 0 then {r} else Visited(m, r, n - 1) + {After(m, r, n)}
  }

  lemma {:induction false} VisitedAt(m: Links, r: string, n: nat, s: string) returns (i: nat)
    requires s in Visited(m, r, n)
    ensures i <= n && After(m, r, i) == s
  {
    if s == After(m, r, n) {
      i := n;
    } else {
      i := VisitedAt(m, r, n - 1, s);
    }
  }

  /** Without a loop every step of a walk comes to an authority not seen before. */
  lemma {:induction false} EachStepIsNew(m: Links, r: string, n: nat)
    requires Closed(m) && !Looped(m) && r in m && After(m, r, n) != ""
    ensures |Visited(m, r, n)| == n + 1 && Visited(m, r, n) <= m.Keys
  {
    if n > 0 {
      EachStepIsNew(m, r, n - 1);
      var s := After(m, r, n);
      AfterStaysLive(m, r, n);
      if s in Visited(m, r, n - 1) {
        var i := VisitedAt(m, r, n - 1, s);
        AfterSum(m, r, i, n - i);
        assert Returns(m, s, n - i);
      }
    }
  }

  lemma {:induction false} SubsetIsNoLarger<T>(a: set<T>, b: set<T>)
    requires a <= b
    ensures |a| <= |b|
  {
    if a != {} {
      var x :| x in a;
      SubsetIsNoLarger(a - {x}, b - {x});
    }
  }

  /** The walk from every authority ends, in no more steps than there are authorities, exactly when there is no loop. */
  lemma {:induction false} EndsIffNoLoop(m: Links)
    requires Closed(m)
    ensures AllEnd(m) <==> !Looped(m)
    ensures !Looped(m) ==> forall r :: r in m ==> After(m, r, |m|) == ""
  {
    if Looped(m) {
      var r, n :| Returns(m, r, n);
      forall k: nat ensures After(m, r, k) != "" {
        LoopNeverEnds(m, r, n, k);
      }
      assert !Ends(m, r);
    } else {
      forall r | r in m ensures After(m, r, |m|) == "" {
        if After(m, r, |m|) != "" {
          EachStepIsNew(m, r, |m|);
          SubsetIsNoLarger(Visited(m, r, |m|), m.Keys);
        }
      }
    }
  }

  // ---- one authority more ----

  lemma {:induction false} AfterGrown(m: Links, k: string, p: string, r: string, n: nat)
    requires Closed(m) && k !in m && k != "" && (r == "" || r in m)
    ensures After(m[k := p], r, n) == After(m, r, n)
  {
    if n > 0 {
      AfterGrown(m, k, p, r, n - 1);
      AfterStaysLive(m, r, n - 1);
    }
  }

  lemma {:induction false} LoopedGrown(m: Links, k: string, p: string)
    requires Closed(m) && k !in m && k != "" && (p == "" || p in m)
    ensures Closed(m[k := p]) && (Looped(m[k := p]) <==> Looped(m))
  {
    var next := m[k := p];
    if Looped(m) {
      var r, n :| Returns(m, r, n);
      AfterGrown(m, k, p, r, n);
      assert Returns(next, r, n);
    }
    if Looped(next) {
      var r: string, n: nat :| Returns(next, r, n);
      if r == k {
        AfterSum(next, k, 1, n - 1);
        assert After(next, k, 1) == Up(next, After(next, k, 0)) == p;
        AfterGrown(m, k, p, p, n - 1);
        AfterStaysLive(m, p, n - 1);
      } else {
        AfterGrown(m, k, p, r, n);
        assert Returns(m, r, n);
      }
    }
  }

  // ---- links added all at once ----

  /** New links go from authorities without a parent to live authorities. */
  ghost predicate Adds(m: Links, more: Links) {
    forall r :: r in more ==> r in m && m[r] == "" && more[r] in m
  }

  ghost predicate Reaches(m: Links, r: string, s: string) {
    exists n :: After(m, r, n) == s
  }

  /** The parent that s is given lies at or below t, by the links there were before. */
  ghost predicate Leads(m: Links, more: Links, s: string, t: string) {
    s in more && Reaches(m, more[s], t)
  }

  ghost predicate Trail(m: Links, more: Links, c: seq<string>) {
    |c| >= 2 && forall j :: 0 <= j < |c| - 1 ==> Leads(m, more, c[j], c[j + 1])
  }

  /** Parentless authorities, each given a parent from the tree of the next, and back to the first. */
  ghost predicate Ring(m: Links, more: Links, c: seq<string>) {
    Trail(m, more, c) && c[0] == c[|c| - 1]
  }

  lemma {:induction false} OldWalkStays(m: Links, more: Links, r: string, n: nat)
    requires Closed(m) && Adds(m, more) && r in m && After(m, r, n) != ""
    ensures After(m + more, r, n) == After(m, r, n)
  {
    if n > 0 {
      AfterStaysLive(m, r, n - 1);
      OldWalkStays(m, more, r, n - 1);
    }
  }

  lemma {:induction false} LeadIsWalk(m: Links, more: Links, s: string, t: string) returns (n: nat)
    requires Closed(m) && Adds(m, more) && Leads(m, more, s, t) && t in m
    ensures n > 0 && After(m + more, s, n) == t
  {
    var k: nat :| After(m, more[s], k) == t;
    OldWalkStays(m, more, more[s], k);
    AfterSum(m + more, s, 1, k);
    assert After(m + more, s, 1) == Up(m + more, After(m + more, s, 0)) == more[s];
    n := 1 + k;
  }

  lemma {:induction false} TrailIsWalk(m: Links, more: Links, c: seq<string>) returns (n: nat)
    requires Closed(m) && Adds(m, more) && Trail(m, more, c) && c[|c| - 1] in m
    ensures n > 0 && After(m + more, c[0], n) == c[|c| - 1]
  {
    var last := |c| - 2;
    assert Leads(m, more, c[last], c[last + 1]);
    var k := LeadIsWalk(m, more, c[last], c[last + 1]);
    if |c| == 2 {
      n := k;
    } else {
      var init := c[..|c| - 1];
      forall j | 0 <= j < |init| - 1 ensures Leads(m, more, init[j], init[j + 1]) {
        assert Leads(m, more, c[j], c[j + 1]);
      }
      var i := TrailIsWalk(m, more, init);
      AfterSum(m + more, c[0], i, k);
      n := i + k;
    }
  }

  /** Up to the first authority that gets a new link, a walk follows the old ones. */
  lemma {:induction false} FirstNewLink(m: Links, more: Links, r: string, k: nat) returns (i: nat)
    requires After(m + more, r, k) in more
    ensures i <= k && After(m + more, r, i) in more && After(m, r, i) == After(m + more, r, i)
    decreases k
  {
    if r in more {
      i := 0;
    } else {
      var up := Up(m, r);
      assert After(m, r, 1) == Up(m, After(m, r, 0)) == up;
      assert After(m + more, r, 1) == Up(m + more, After(m + more, r, 0)) == up;
      AfterSum(m + more, r, 1, k - 1);
      i := FirstNewLink(m, more, up, k - 1);
      AfterSum(m, r, 1, i);
      AfterSum(m + more, r, 1, i);
      i := 1 + i;
    }
  }

  lemma {:induction false} TrailExtended(m: Links, more: Links, s: string, c: seq<string>)
    requires Trail(m, more, c) && Leads(m, more, s, c[0])
    ensures Trail(m, more, [s] + c)
  {
    var d := [s] + c;
    forall j | 0 <= j < |d| - 1 ensures Leads(m, more, d[j], d[j + 1]) {
      if j > 0 {
        assert Leads(m, more, c[j - 1], c[j]);
      }
    }
  }

  lemma {:induction false} WalkIsTrail(m: Links, more: Links, s: string, n: nat, t: string) returns (c: seq<string>)
    requires s in more && t in more && n > 0 && After(m + more, s, n) == t
    ensures Trail(m, more, c) && c[0] == s && c[|c| - 1] == t
    decreases n
  {
    var both, p := m + more, more[s];
    assert After(both, s, 1) == Up(both, After(both, s, 0)) == p;
    AfterSum(both, s, 1, n - 1);
    var i := FirstNewLink(m, more, p, n - 1);
    var u := After(m, p, i);
    assert Reaches(m, p, u);
    if i == n - 1 {
      c := [s, t];
      assert Leads(m, more, c[0], c[1]);
    } else {
      AfterSum(both, p, i, n - 1 - i);
      var rest := WalkIsTrail(m, more, u, n - 1 - i, t);
      assert Leads(m, more, s, rest[0]);
      TrailExtended(m, more, s, rest);
      c := [s] + rest;
    }
  }

  lemma {:induction false} SameWalk(m: Links, more: Links, r: string, n: nat)
    requires forall j :: 0 <= j < n ==> After(m + more, r, j) !in more
    ensures After(m, r, n) == After(m + more, r, n)
  {
    if n > 0 {
      SameWalk(m, more, r, n - 1);
      assert After(m + more, r, n - 1) !in more;
    }
  }

  lemma {:induction false} LoopHasRing(m: Links, more: Links, r: string, n: nat)
    requires Returns(m + more, r, n) && Adds(m, more)
    ensures Looped(m) || exists c :: Ring(m, more, c)
  {
    var both := m + more;
    if j: nat :| j < n && After(both, r, j) in more {
      var s := After(both, r, j);
      AfterSum(both, r, j, n);
      AfterSum(both, r, n, j);
      assert j + n == n + j;
      var c := WalkIsTrail(m, more, s, n, s);
      assert Ring(m, more, c);
    } else {
      SameWalk(m, more, r, n);
      assert Returns(m, r, n);
    }
  }

  /** Added links close a loop exactly when there is a ring of them. */
  lemma {:induction false} LoopedByRing(m: Links, more: Links)
    requires Closed(m) && Adds(m, more)
    ensures Looped(m + more) <==> Looped(m) || exists c :: Ring(m, more, c)
  {
    if Looped(m) {
      var r, n :| Returns(m, r, n);
      OldWalkStays(m, more, r, n);
      assert Returns(m + more, r, n);
    }
    if c :| Ring(m, more, c) {
      assert Leads(m, more, c[0], c[1]);
      var n := TrailIsWalk(m, more, c);
      assert Returns(m + more, c[0], n);
    }
    if Looped(m + more) {
      var r, n :| Returns(m + more, r, n);
      LoopHasRing(m, more, r, n);
    }
  }

  // ---- the tables ----

  /** What a stored certificate says of its own key and its issuer's; empty when the extension is missing. */
  datatype KeyIds = KeyIds(ski: string -> string, aki: string -> string)

  /** The identifier of an authority's own key. */
  function OwnKey(ids: KeyIds): Ca -> string { (x: Ca) => ids.ski(x.pem) }

  /** An orphan's parent is the first authority whose key its certificate names; the others keep theirs. */
  function ParentFor(ids: KeyIds, cas: seq<Ca>, c: Ca): string {
    if c.caref != "" then c.caref
    else
      var aki := ids.aki(c.pem);
      if aki == "" || aki == ids.ski(c.pem) then ""
      else
        var p := Find(OwnKey(ids), cas, aki);
        if p < |cas| then cas[p].refid else ""
  }

  function Repaired(ids: KeyIds, cas: seq<Ca>): seq<Ca> {
    seq(|cas|, i requires 0 <= i < |cas| => cas[i].(caref := ParentFor(ids, cas, cas[i])))
  }

  /** Row p is the first whose key has this identifier. */
  predicate FirstWithKey(ids: KeyIds, cas: seq<Ca>, key: string, p: nat) {
    p < |cas| && ids.ski(cas[p].pem) == key && forall k :: 0 <= k < p ==> ids.ski(cas[k].pem) != key
  }

  lemma {:induction false} FoundFirst(ids: KeyIds, cas: seq<Ca>, key: string, p: nat)
    requires FirstWithKey(ids, cas, key, p)
    ensures Find(OwnKey(ids), cas, key) == p
  {
    if p > 0 {
      assert ids.ski(cas[0].pem) != key;
      FoundFirst(ids, cas[1..], key, p - 1);
    }
  }

  /** The rows after a repair: only the parent of an orphan changes, whose certificate names an issuer key other than its
      own that some authority has; it becomes the first such authority. */
  lemma {:induction false} RepairedRows(ids: KeyIds, cas: seq<Ca>, i: nat)
    requires i < |cas|
    ensures |Repaired(ids, cas)| == |cas| && Repaired(ids, cas)[i] == cas[i].(caref := Repaired(ids, cas)[i].caref)
    ensures var aki, now := ids.aki(cas[i].pem), Repaired(ids, cas)[i].caref;
      && (cas[i].caref != "" || aki == "" || aki == ids.ski(cas[i].pem) ==> now == cas[i].caref)
      && (cas[i].caref == "" && aki != "" && aki != ids.ski(cas[i].pem) ==>
            && ((forall k :: 0 <= k < |cas| ==> ids.ski(cas[k].pem) != aki) ==> now == "")
            && forall p: nat :: FirstWithKey(ids, cas, aki, p) ==> now == cas[p].refid && p != i)
  {
    var aki := ids.aki(cas[i].pem);
    forall p: nat | FirstWithKey(ids, cas, aki, p) ensures Find(OwnKey(ids), cas, aki) == p {
      FoundFirst(ids, cas, aki, p);
    }
  }

  function Refids(cas: seq<Ca>): set<string> { set c | c in cas :: c.refid }

  function Parents(cas: seq<Ca>): Links {
    map r | r in Refids(cas) && Find(REFID, cas, r) < |cas| :: cas[Find(REFID, cas, r)].caref
  }

  /** The parent that the repair leaves the authority r with. */
  function Given(ids: KeyIds, cas: seq<Ca>, r: string): string {
    var i := Find(REFID, cas, r);
    if i < |cas| then ParentFor(ids, cas, cas[i]) else ""
  }

  /** The links that the repair adds. */
  function Added(ids: KeyIds, cas: seq<Ca>): Links {
    map r | r in Parents(cas) && Parents(cas)[r] == "" && Given(ids, cas, r) != "" :: Given(ids, cas, r)
  }

  /** The new links, with the old, lead round in a circle. */
  ghost predicate ClosesLoop(ids: KeyIds, cas: seq<Ca>) {
    exists c :: Ring(Parents(cas), Added(ids, cas), c)
  }

  /** Refids are unique and references live. */
  ghost predicate Sound(cas: seq<Ca>) {
    forall i :: 0 <= i < |cas| ==> Find(REFID, cas, cas[i].refid) == i && Refers(cas, cas[i].caref)
  }

  lemma {:induction false} InParents(cas: seq<Ca>, r: string)
    ensures r in Parents(cas) <==> Find(REFID, cas, r) < |cas|
    ensures r in Parents(cas) ==> Parents(cas)[r] == cas[Find(REFID, cas, r)].caref
  {
    if Find(REFID, cas, r) < |cas| {
      assert cas[Find(REFID, cas, r)] in cas;
    }
  }

  lemma {:induction false} ParentsClosed(cas: seq<Ca>)
    requires Sound(cas)
    ensures Closed(Parents(cas))
  {
    var m := Parents(cas);
    InParents(cas, "");
    forall r | r in m ensures m[r] == "" || m[r] in m {
      InParents(cas, r);
      InParents(cas, m[r]);
      assert Refers(cas, cas[Find(REFID, cas, r)].caref);
    }
  }

  lemma {:induction false} AddedAdds(ids: KeyIds, cas: seq<Ca>)
    ensures Adds(Parents(cas), Added(ids, cas))
  {
    var m, more := Parents(cas), Added(ids, cas);
    forall r | r in more ensures r in m && m[r] == "" && more[r] in m {
      InParents(cas, r);
      var c := cas[Find(REFID, cas, r)];
      assert c.caref == "" && more[r] == ParentFor(ids, cas, c) != "";
      var p := Find(OwnKey(ids), cas, ids.aki(c.pem));
      assert p < |cas| && more[r] == cas[p].refid;
      FindPresent(REFID, cas, p);
      InParents(cas, more[r]);
    }
  }

  lemma {:induction false} SameKeysSameFind(cas: seq<Ca>, next: seq<Ca>, r: string)
    requires |next| == |cas| && forall i :: 0 <= i < |cas| ==> next[i].refid == cas[i].refid
    ensures Find(REFID, next, r) == Find(REFID, cas, r)
  {
    if cas != [] {
      assert next[0].refid == cas[0].refid;
      forall i | 0 <= i < |cas[1..]| ensures next[1..][i].refid == cas[1..][i].refid {
        assert next[i + 1].refid == cas[i + 1].refid;
      }
      SameKeysSameFind(cas[1..], next[1..], r);
    }
  }

  lemma {:induction false} RepairedLink(ids: KeyIds, cas: seq<Ca>, next: seq<Ca>, r: string)
    requires next == Repaired(ids, cas)
    ensures r in Parents(next) <==> r in Parents(cas)
    ensures r in Parents(next) ==> Parents(next)[r] == if r in Added(ids, cas) then Added(ids, cas)[r] else Parents(cas)[r]
  {
    SameKeysSameFind(cas, next, r);
    InParents(cas, r);
    InParents(next, r);
    var i := Find(REFID, cas, r);
    if i < |cas| {
      assert next[i].caref == ParentFor(ids, cas, cas[i]) == Given(ids, cas, r);
    }
  }

  lemma {:induction false} RepairedLinks(ids: KeyIds, cas: seq<Ca>)
    ensures Parents(Repaired(ids, cas)) == Parents(cas) + Added(ids, cas)
  {
    var next := Repaired(ids, cas);
    forall r: string
      ensures r in Parents(next) <==> r in Parents(cas)
      ensures r in Parents(next) ==> Parents(next)[r] == if r in Added(ids, cas) then Added(ids, cas)[r] else Parents(cas)[r]
    {
      RepairedLink(ids, cas, next, r);
    }
  }

  lemma {:induction false} RepairedSound(ids: KeyIds, cas: seq<Ca>)
    requires Sound(cas)
    ensures Sound(Repaired(ids, cas))
  {
    var next := Repaired(ids, cas);
    forall i | 0 <= i < |next| ensures Find(REFID, next, next[i].refid) == i && Refers(next, next[i].caref) {
      assert Refers(cas, cas[i].caref);
      SameKeysSameFind(cas, next, cas[i].refid);
      SameKeysSameFind(cas, next, next[i].caref);
      if cas[i].caref == "" && next[i].caref != "" {
        FindPresent(REFID, cas, Find(OwnKey(ids), cas, ids.aki(cas[i].pem)));
      }
    }
  }

  /** One repair closes a loop exactly when its links lead round in a circle. */
  lemma {:induction false} LoopedByRepair(ids: KeyIds, cas: seq<Ca>)
    requires Sound(cas)
    ensures Looped(Parents(Repaired(ids, cas))) <==> Looped(Parents(cas)) || ClosesLoop(ids, cas)
  {
    ParentsClosed(cas);
    AddedAdds(ids, cas);
    RepairedLinks(ids, cas);
    LoopedByRing(Parents(cas), Added(ids, cas));
  }

  // ---- the service's own operations ----

  lemma {:induction false} BumpedLink(cas: seq<Ca>, next: seq<Ca>, p: nat, r: string)
    requires p < |cas| && next == Bumped(cas, p)
    ensures Find(REFID, next, r) == Find(REFID, cas, r)
    ensures r in Parents(next) <==> r in Parents(cas)
    ensures r in Parents(next) ==> Parents(next)[r] == Parents(cas)[r]
  {
    FindInBumped(cas, p, r);
    InParents(cas, r);
    InParents(next, r);
  }

  lemma {:induction false} BumpedLinks(cas: seq<Ca>, p: nat)
    requires p < |cas|
    ensures Parents(Bumped(cas, p)) == Parents(cas)
  {
    forall r: string
      ensures r in Parents(Bumped(cas, p)) <==> r in Parents(cas)
      ensures r in Parents(Bumped(cas, p)) ==> Parents(Bumped(cas, p))[r] == Parents(cas)[r]
    {
      BumpedLink(cas, Bumped(cas, p), p, r);
    }
  }

  lemma {:induction false} BumpedSound(cas: seq<Ca>, p: nat)
    requires p < |cas| && Sound(cas)
    ensures Sound(Bumped(cas, p))
  {
    var next := Bumped(cas, p);
    forall i | 0 <= i < |next| ensures Find(REFID, next, next[i].refid) == i && Refers(next, next[i].caref) {
      assert Refers(cas, cas[i].caref);
      FindInBumped(cas, p, cas[i].refid);
      FindInBumped(cas, p, cas[i].caref);
    }
  }

  lemma {:induction false} BumpedKeeps(cas: seq<Ca>, p: nat)
    requires p < |cas| && Sound(cas)
    ensures Sound(Bumped(cas, p)) && Parents(Bumped(cas, p)) == Parents(cas)
  {
    BumpedLinks(cas, p);
    BumpedSound(cas, p);
  }

  lemma {:induction false} GrownLinks(cas: seq<Ca>, c: Ca)
    requires Find(REFID, cas, c.refid) == |cas|
    ensures Parents(cas + [c]) == Parents(cas)[c.refid := c.caref]
  {
    var next := cas + [c];
    forall r: string
      ensures r in Parents(next) <==> r in Parents(cas)[c.refid := c.caref]
      ensures r in Parents(next) ==> Parents(next)[r] == Parents(cas)[c.refid := c.caref][r]
    {
      FindAppended(REFID, cas, c, r);
      InParents(cas, r);
      InParents(next, r);
    }
  }

  lemma {:induction false} GrownSound(cas: seq<Ca>, c: Ca)
    requires Sound(cas) && Find(REFID, cas, c.refid) == |cas| && Refers(cas, c.caref)
    ensures Sound(cas + [c])
  {
    var next := cas + [c];
    FindAppended(REFID, cas, c, c.refid);
    FindAppended(REFID, cas, c, c.caref);
    forall i | 0 <= i < |next| ensures Find(REFID, next, next[i].refid) == i && Refers(next, next[i].caref) {
      if i < |cas| {
        assert Refers(cas, cas[i].caref);
        FindAppended(REFID, cas, c, cas[i].refid);
        FindAppended(REFID, cas, c, cas[i].caref);
      }
    }
  }

  /** A new authority is nobody's parent yet, so it closes no loop. */
  lemma {:induction false} GrownKeeps(cas: seq<Ca>, c: Ca)
    requires Sound(cas) && Find(REFID, cas, c.refid) == |cas| && Refers(cas, c.caref)
    ensures Sound(cas + [c]) && (Looped(Parents(cas + [c])) <==> Looped(Parents(cas)))
  {
    GrownSound(cas, c);
    GrownLinks(cas, c);
    ParentsClosed(cas);
    InParents(cas, c.refid);
    InParents(cas, c.caref);
    LoopedGrown(Parents(cas), c.refid, c.caref);
  }

  lemma {:induction false} ShrunkRow(cas: seq<Ca>, next: seq<Ca>, k: nat, was: nat)
    requires k < |cas| && was < |cas| && was != k && next == Without(cas, k)
    requires Find(REFID, cas, cas[was].refid) == was && Find(REFID, cas, cas[k].refid) == k
    requires Refers(cas, cas[was].caref) && cas[was].caref != cas[k].refid
    ensures Find(REFID, next, cas[was].refid) == if was < k then was else was - 1
    ensures Refers(next, cas[was].caref)
  {
    FindWithout(REFID, cas, k, cas[was].refid);
    FindWithout(REFID, cas, k, cas[was].caref);
  }

  lemma {:induction false} ShrunkSound(cas: seq<Ca>, k: nat)
    requires Sound(cas) && k < |cas|
    requires forall i :: 0 <= i < |cas| ==> cas[i].caref != cas[k].refid
    ensures Sound(Without(cas, k))
  {
    var next := Without(cas, k);
    forall i | 0 <= i < |next| ensures Find(REFID, next, next[i].refid) == i && Refers(next, next[i].caref) {
      var was := if i < k then i else i + 1;
      assert next[i] == cas[was];
      assert Refers(cas, cas[was].caref);
      ShrunkRow(cas, next, k, was);
    }
  }

  lemma {:induction false} RemovedIsGone(cas: seq<Ca>, k: nat)
    requires Sound(cas) && k < |cas|
    ensures Find(REFID, Without(cas, k), cas[k].refid) == |Without(cas, k)|
  {
    var next, gone := Without(cas, k), cas[k].refid;
    forall i | 0 <= i < |next| ensures next[i].refid != gone {
      var was := if i < k then i else i + 1;
      assert next[i] == cas[was] && Find(REFID, cas, cas[was].refid) == was;
    }
    FindAbsent(REFID, next, gone);
  }

  lemma {:induction false} ShrunkLink(cas: seq<Ca>, next: seq<Ca>, k: nat, r: string)
    requires k < |cas| && next == Without(cas, k) && r != cas[k].refid
    ensures r in Parents(cas) <==> r in Parents(next)
    ensures r in Parents(cas) ==> Parents(cas)[r] == Parents(next)[r]
  {
    InParents(cas, r);
    InParents(next, r);
    FindWithout(REFID, cas, k, r);
  }

  lemma {:induction false} ShrunkLinks(cas: seq<Ca>, k: nat)
    requires Sound(cas) && k < |cas|
    ensures cas[k].refid !in Parents(Without(cas, k))
    ensures Parents(cas) == Parents(Without(cas, k))[cas[k].refid := cas[k].caref]
  {
    var next, gone := Without(cas, k), cas[k].refid;
    RemovedIsGone(cas, k);
    InParents(next, gone);
    InParents(cas, gone);
    assert Find(REFID, cas, cas[k].refid) == k;
    forall r: string | r != gone
      ensures r in Parents(cas) <==> r in Parents(next)
      ensures r in Parents(cas) ==> Parents(cas)[r] == Parents(next)[r]
    {
      ShrunkLink(cas, next, k, r);
    }
  }

  /** An authority that is nobody's parent lies on no loop. */
  lemma {:induction false} ShrunkKeeps(cas: seq<Ca>, k: nat)
    requires Sound(cas) && k < |cas|
    requires forall i :: 0 <= i < |cas| ==> cas[i].caref != cas[k].refid
    ensures Sound(Without(cas, k)) && (Looped(Parents(Without(cas, k))) <==> Looped(Parents(cas)))
  {
    var next := Without(cas, k);
    ShrunkSound(cas, k);
    ShrunkLinks(cas, k);
    ParentsClosed(next);
    assert Refers(cas, cas[k].caref) && cas[k].caref != cas[k].refid;
    InParents(cas, cas[k].caref);
    LoopedGrown(Parents(next), cas[k].refid, cas[k].caref);
  }

  lemma {:induction false} CreateKeepsLoops(db: Db, refid: Refid, caref: string, pem: string)
    requires Sound(db.cas) && CreateInternal(db, refid, caref, pem).Ok?
    ensures var next := CreateInternal(db, refid, caref, pem).value.cas;
            Sound(next) && (Looped(Parents(next)) <==> Looped(Parents(db.cas)))
  {
    if caref == "" {
      GrownKeeps(db.cas, Ca(NextCaId(db.cas), refid, "", true, 0, pem));
    } else {
      var p := Find(REFID, db.cas, caref);
      var rows := Bumped(db.cas, p);
      BumpedKeeps(db.cas, p);
      FindInBumped(db.cas, p, caref);
      GrownKeeps(rows, Ca(NextCaId(rows), refid, caref, true, 0, pem));
    }
  }

  lemma {:induction false} DeleteKeepsLoops(db: Db, id: nat)
    requires Sound(db.cas) && DeleteCa(db, id).Ok?
    ensures var next := DeleteCa(db, id).value.cas;
            Sound(next) && (Looped(Parents(next)) <==> Looped(Parents(db.cas)))
  {
    var k := Find(CA_ID, db.cas, id);
    NoChildren(db.cas, db.cas[k].refid);
    ShrunkKeeps(db.cas, k);
  }

  /** No operation of the service closes a loop or breaks one. */
  lemma {:induction false} StepKeepsLoops(db: Db, e: Event)
    requires Sound(db.cas)
    ensures Sound(Step(db, e).cas) && (Looped(Parents(Step(db, e).cas)) <==> Looped(Parents(db.cas)))
  {
    if Attempt(db, e).Ok? {
      match e
      case Create(refid, caref, pem) => CreateKeepsLoops(db, refid, caref, pem);
      case Imported(refid, hasKey, pem) => GrownKeeps(db.cas, Ca(NextCaId(db.cas), refid, "", hasKey, 0, pem));
      case RemoveCa(id) => DeleteKeepsLoops(db, id);
      case Issue(caref) => BumpedKeeps(db.cas, Find(REFID, db.cas, caref));
      case Sign(id, caref) => BumpedKeeps(db.cas, Find(REFID, db.cas, caref));
      case Request =>
      case ImportedCert =>
      case RemoveCert(id) =>
    }
  }

  // ---- runs with repairs ----

  datatype Happening = Served(e: Event) | Repair

  function Next(ids: KeyIds, db: Db, h: Happening): Db {
    match h
    case Served(e) => Step(db, e)
    case Repair => Db(Repaired(ids, db.cas), db.certs)
  }

  function State(ids: KeyIds, hs: seq<Happening>): Db {
    if hs == [] then Db([], []) else Next(ids, State(ids, hs[..|hs| - 1]), hs[|hs| - 1])
  }

  /** The kth thing to happen is a repair whose links lead round in a circle. */
  ghost predicate BadRepair(ids: KeyIds, hs: seq<Happening>, k: nat) {
    k < |hs| && hs[k].Repair? && ClosesLoop(ids, State(ids, hs[..k]).cas)
  }

  lemma {:induction false} BadRepairInPrefix(ids: KeyIds, hs: seq<Happening>, k: nat)
    requires hs != [] && k < |hs| - 1
    ensures BadRepair(ids, hs, k) <==> BadRepair(ids, hs[..|hs| - 1], k)
  {
    assert hs[..|hs| - 1][..k] == hs[..k];
  }

  lemma {:induction false} LoopedIffBadRepair(ids: KeyIds, hs: seq<Happening>)
    ensures Sound(State(ids, hs).cas)
    ensures Looped(Parents(State(ids, hs).cas)) <==> exists k :: BadRepair(ids, hs, k)
  {
    if hs == [] {
      var none: seq<Ca> := [];
      assert Parents(none) == map[];
    } else {
      var init, last := hs[..|hs| - 1], |hs| - 1;
      var db := State(ids, init);
      LoopedIffBadRepair(ids, init);
      match hs[last] {
        case Served(e) => StepKeepsLoops(db, e);
        case Repair =>
          RepairedSound(ids, db.cas);
          LoopedByRepair(ids, db.cas);
      }
      LastMayBeBad(ids, hs, init);
    }
  }

  lemma {:induction false} LastMayBeBad(ids: KeyIds, hs: seq<Happening>, init: seq<Happening>)
    requires hs != [] && init == hs[..|hs| - 1]
    ensures (exists k :: BadRepair(ids, hs, k)) <==> (exists k :: BadRepair(ids, init, k)) || BadRepair(ids, hs, |hs| - 1)
  {
    if k: nat :| BadRepair(ids, init, k) {
      BadRepairInPrefix(ids, hs, k);
      assert BadRepair(ids, hs, k);
    }
    if k: nat :| BadRepair(ids, hs, k) {
      if k < |hs| - 1 {
        BadRepairInPrefix(ids, hs, k);
      }
    }
  }

  /** Over any run the walk from every authority ends exactly when no repair's links led round in a circle. */
  lemma {:induction false} ChainsEndIff(ids: KeyIds, hs: seq<Happening>)
    ensures AllEnd(Parents(State(ids, hs).cas)) <==> forall k :: !BadRepair(ids, hs, k)
  {
    LoopedIffBadRepair(ids, hs);
    ParentsClosed(State(ids, hs).cas);
    EndsIffNoLoop(Parents(State(ids, hs).cas));
  }

  // ---- two cross-certificates ----

  const CROSS_KEYS := KeyIds(
    (pem: string) => if pem == "A" then "ka" else "kb",
    (pem: string) => if pem == "A" then "kb" else "ka")

  /** Two imported authorities that certify each other's key, and a repair. */
  const CROSS_IMPORTS: seq<Happening> :=
    [Served(Imported("a", true, "A")), Served(Imported("b", true, "B")), Repair]

  function CrossRows(parentOfA: string, parentOfB: string): seq<Ca> {
    [Ca(1, "a", parentOfA, true, 0, "A"), Ca(2, "b", parentOfB, true, 0, "B")]
  }

  lemma {:induction false} CrossLinks(parentOfA: string, parentOfB: string)
    ensures Find(REFID, CrossRows(parentOfA, parentOfB), "a") == 0 && Find(REFID, CrossRows(parentOfA, parentOfB), "b") == 1
    ensures Parents(CrossRows(parentOfA, parentOfB)) == map["a" := parentOfA, "b" := parentOfB]
  {
    var cas := CrossRows(parentOfA, parentOfB);
    assert cas[1..] == [cas[1]];
    assert "a" != "b";
    forall r: string ensures r in Parents(cas) <==> r == "a" || r == "b" {
      InParents(cas, r);
      assert cas[1..][1..] == [];
    }
    InParents(cas, "a");
    InParents(cas, "b");
  }

  lemma {:induction false} CrossRepaired()
    ensures Repaired(CROSS_KEYS, CrossRows("", "")) == CrossRows("b", "a")
  {
    var cas := CrossRows("", "");
    assert cas[1..] == [cas[1]];
    assert "A" != "B" && "ka" != "kb";
    assert ParentFor(CROSS_KEYS, cas, cas[0]) == "b" && ParentFor(CROSS_KEYS, cas, cas[1]) == "a";
  }

  lemma {:induction false} CrossStates()
    ensures State(CROSS_KEYS, CROSS_IMPORTS[..2]).cas == CrossRows("", "")
    ensures State(CROSS_KEYS, CROSS_IMPORTS).cas == CrossRows("b", "a")
  {
    var hs, one := CROSS_IMPORTS, [Ca(1, "a", "", true, 0, "A")];
    assert hs[..0] == [] && hs[..2][..1] == hs[..1] && hs[..1][..0] == [] && hs[..3] == hs;
    assert State(CROSS_KEYS, hs[..1]).cas == one;
    assert one[1..] == [] && "a" != "b";
    assert State(CROSS_KEYS, hs[..2]).cas == CrossRows("", "");
    CrossRepaired();
  }

  lemma {:induction false} CrossWalk(m: Links, n: nat)
    requires "a" in m && m["a"] == "b" && "b" in m && m["b"] == "a"
    ensures After(m, "a", n) == if n % 2 == 0 then "a" else "b"
  {
    if n > 0 {
      CrossWalk(m, n - 1);
    }
  }

  /** Each becomes the other's parent, and the walk from either goes on for ever. */
  lemma {:induction false} CrossCertificatesNeverEnd(n: nat)
    ensures Parents(State(CROSS_KEYS, CROSS_IMPORTS).cas) == map["a" := "b", "b" := "a"]
    ensures After(Parents(State(CROSS_KEYS, CROSS_IMPORTS).cas), "a", n) == if n % 2 == 0 then "a" else "b"
  {
    CrossStates();
    CrossLinks("b", "a");
    CrossWalk(map["a" := "b", "b" := "a"], n);
  }
}
