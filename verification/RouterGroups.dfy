/** Middleware coverage of router groups: walks up a parent map that may be cyclic. */
module RouterGroups {
  /** `covered` are the groups with logging middleware, `installed` those an
      InstallRoutes call was made with; the empty name stands for no group. */
  datatype Context = Context(covered: map<string, bool>, installed: set<string>, parent: map<string, string>)
  {
    function Parent(g: string): string {
      if g in parent then parent[g] else ""
    }

    /** Only named groups are recorded as installed. */
    predicate WellBuilt() {
      "" !in installed
    }

    predicate Covers(g: string) {
      g in covered && covered[g]
    }
  }

  /** The `n`-th ancestor; empty once the chain has ended. */
  function Up(ctx: Context, g: string, n: nat): string {
    if n == 0 then g else if Up(ctx, g, n - 1) == "" then "" else ctx.Parent(Up(ctx, g, n - 1))
  }

  /** `a` is `g` itself or one of its ancestors. */
  ghost predicate AncestorOrSelf(ctx: Context, g: string, a: string) {
    a != "" && exists n: nat :: Up(ctx, g, n) == a
  }

  ghost predicate HasCoverage(ctx: Context, g: string) {
    exists a :: AncestorOrSelf(ctx, g, a) && a in ctx.covered && ctx.covered[a]
  }

  /** Ancestry by the parent map alone: a named group is its own ancestor, and otherwise its
      ancestors are those of its parent. */
  lemma AncestryIs(ctx: Context, g: string, a: string)
    ensures AncestorOrSelf(ctx, g, a) <==>
      a != "" && (a == g || (g != "" && g in ctx.parent && AncestorOrSelf(ctx, ctx.parent[g], a)))
  {
    assert Up(ctx, g, 0) == g;
    if AncestorOrSelf(ctx, g, a) && a != g {
      var n: nat :| Up(ctx, g, n) == a;
      EmptyStaysEmpty(ctx, n);
      EmptyStaysEmpty(ctx, n - 1);
      UpFrom(ctx, g, n - 1);
      assert Up(ctx, ctx.Parent(g), n - 1) == a;
    }
    if g != "" && g in ctx.parent && AncestorOrSelf(ctx, ctx.parent[g], a) {
      var n: nat :| Up(ctx, ctx.parent[g], n) == a;
      UpFrom(ctx, g, n);
    }
  }

  lemma {:induction false} UpFrom(ctx: Context, g: string, n: nat)
    requires g != ""
    ensures Up(ctx, g, n + 1) == Up(ctx, ctx.Parent(g), n)
  {
    if n > 0 { UpFrom(ctx, g, n - 1); } else { assert Up(ctx, g, 0) == g; }
  }

  lemma {:induction false} EmptyStaysEmpty(ctx: Context, n: nat)
    ensures Up(ctx, "", n) == ""
  {
    if n > 0 { EmptyStaysEmpty(ctx, n - 1); }
  }

  // ---------- the visited set is enough ----------

  /** `trail` lists the first names of the walk from `g`. */
  predicate Trail(ctx: Context, g: string, trail: seq<string>) {
    forall k: nat | k < |trail| :: trail[k] == Up(ctx, g, k)
  }

  /** Once an ancestor repeats, no later one is new. */
  lemma {:induction false} CycleClosed(ctx: Context, g: string, trail: seq<string>, m: nat)
    requires Trail(ctx, g, trail) && Up(ctx, g, |trail|) in trail && "" !in trail
    ensures Up(ctx, g, m) in trail
    decreases m
  {
    if m < |trail| {
      assert trail[m] == Up(ctx, g, m);
    } else if m > |trail| {
      CycleClosed(ctx, g, trail, m - 1);
      var k: nat :| k < |trail| && trail[k] == Up(ctx, g, m - 1);
      assert Up(ctx, g, m) == Up(ctx, g, k + 1);
      if k + 1 < |trail| { assert trail[k + 1] == Up(ctx, g, k + 1); }
    }
  }

  lemma {:induction false} EndedStaysEnded(ctx: Context, g: string, n: nat, m: nat)
    requires Up(ctx, g, n) == "" && n <= m
    ensures Up(ctx, g, m) == ""
    decreases m
  {
    if m > n { EndedStaysEnded(ctx, g, n, m - 1); }
  }

  /** When the walk stops, every ancestor has been seen. */
  lemma WalkIsComplete(ctx: Context, g: string, trail: seq<string>)
    requires Trail(ctx, g, trail) && "" !in trail && (Up(ctx, g, |trail|) == "" || Up(ctx, g, |trail|) in trail)
    ensures forall a :: AncestorOrSelf(ctx, g, a) <==> a in trail
  {
    forall a | AncestorOrSelf(ctx, g, a) ensures a in trail {
      var m: nat :| Up(ctx, g, m) == a;
      if Up(ctx, g, |trail|) == "" {
        if m >= |trail| { EndedStaysEnded(ctx, g, |trail|, m); } else { assert trail[m] == a; }
      } else {
        CycleClosed(ctx, g, trail, m);
      }
    }
  }

  /** One more step of the walk. */
  lemma TrailSnoc(ctx: Context, g: string, trail: seq<string>, current: string)
    requires Trail(ctx, g, trail) && current == Up(ctx, g, |trail|) && current != ""
    ensures Trail(ctx, g, trail + [current])
    ensures Up(ctx, g, |trail + [current]|) == ctx.Parent(current)
    ensures forall x :: x in trail + [current] <==> x in trail || x == current
  {}

  function Names(ctx: Context, g: string): set<string> {
    {g} + ctx.parent.Values
  }

  // ---------- the walks ----------

  /** `isAncestorGroup`: terminates and decides ancestry on any parent map. */
  method IsAncestorGroup(ctx: Context, child: string, ancestor: string) returns (r: bool)
    ensures r <==> AncestorOrSelf(ctx, child, ancestor)
  {
    var visited: set<string> := {};
    var current := child;
    ghost var trail: seq<string> := [];
    while current != "" && current !in visited
      invariant current == Up(ctx, child, |trail|) && Trail(ctx, child, trail)
      invariant forall x :: x in trail <==> x in visited
      invariant "" !in visited && ancestor !in visited
      invariant visited <= Names(ctx, child) && (current == "" || current in Names(ctx, child))
      decreases Names(ctx, child) - visited
    {
      if current == ancestor { return true; }
      TrailSnoc(ctx, child, trail, current);
      trail := trail + [current];
      visited := visited + {current};
      current := ctx.Parent(current);
    }
    WalkIsComplete(ctx, child, trail);
    r := false;
  }

  /** `groupHasCoverage`: some ancestor-or-self has middleware. */
  method GroupHasCoverage(ctx: Context, group: string) returns (r: bool)
    ensures r <==> HasCoverage(ctx, group)
  {
    var visited: set<string> := {};
    var current := group;
    ghost var trail: seq<string> := [];
    while current != "" && current !in visited
      invariant current == Up(ctx, group, |trail|) && Trail(ctx, group, trail)
      invariant forall x :: x in trail <==> x in visited
      invariant "" !in visited && forall x | x in visited :: !ctx.Covers(x)
      invariant visited <= Names(ctx, group) && (current == "" || current in Names(ctx, group))
      decreases Names(ctx, group) - visited
    {
      TrailSnoc(ctx, group, trail, current);
      trail := trail + [current];
      visited := visited + {current};
      if ctx.Covers(current) {
        assert AncestorOrSelf(ctx, group, current);
        return true;
      }
      current := ctx.Parent(current);
    }
    WalkIsComplete(ctx, group, trail);
    r := false;
  }

  /** `parentHasMiddlewareCoveringChild`, over the maps in any order. */
  method ParentHasMiddleware(ctx: Context) returns (r: bool)
    ensures r <==> exists c | c in ctx.covered ::
      ctx.covered[c] && (c in ctx.installed || exists g | g in ctx.installed :: AncestorOrSelf(ctx, g, c))
  {
    var groups := ctx.covered.Keys;
    while groups != {}
      invariant groups <= ctx.covered.Keys
      invariant forall c | c in ctx.covered && c !in groups && ctx.Covers(c) :: c !in ctx.installed
      invariant forall c, g | c in ctx.covered && c !in groups && ctx.Covers(c) && g in ctx.installed :: !AncestorOrSelf(ctx, g, c)
    {
      var c :| c in groups;
      groups := groups - {c};
      if !ctx.covered[c] { continue; }
      if c in ctx.installed { return true; }
      var left := ctx.installed;
      while left != {}
        invariant left <= ctx.installed
        invariant forall g | g in ctx.installed && g !in left :: !AncestorOrSelf(ctx, g, c)
      {
        var g :| g in left;
        left := left - {g};
        var found := IsAncestorGroup(ctx, g, c);
        if found { return true; }
      }
    }
    r := false;
  }

  /** The `InstallRoutes` case of `handleCall`, the only place that records a group as
      installed; the argument's and receiver's names are empty when they are no
      identifiers. */
  method RecordInstall(ctx: Context, groupArg: string, receiver: string) returns (more: Context)
    ensures ctx.WellBuilt() ==> more.WellBuilt()
    ensures more == ctx.(installed := more.installed)
    ensures forall g :: g in more.installed <==> g in ctx.installed || (g == groupArg != "" && receiver != "")
  {
    more := ctx;
    if groupArg != "" && receiver != "" {
      more := more.(installed := more.installed + {groupArg});
    }
  }

  /** The parent covers the child exactly when some group handed to InstallRoutes has
      coverage. */
  lemma MiddlewareIsCoverage(ctx: Context)
    requires ctx.WellBuilt()
    ensures (exists c | c in ctx.covered ::
        ctx.covered[c] && (c in ctx.installed || exists g | g in ctx.installed :: AncestorOrSelf(ctx, g, c)))
      <==> (exists g | g in ctx.installed :: HasCoverage(ctx, g))
  {
    forall c | c in ctx.covered && ctx.Covers(c) && c in ctx.installed ensures HasCoverage(ctx, c) {
      assert Up(ctx, c, 0) == c;
      assert AncestorOrSelf(ctx, c, c);
    }
  }
}
