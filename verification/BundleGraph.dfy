// What the first page load fetches: initialBundleSizes in
// packages/web/bundleBudget.js. A recursive visit fills two sets in place over
// an import graph that may have cycles and targets that are missing or are not
// chunks.
module BundleGraph {
  import opened Wrappers

  // A chunk goes by the key it has in the bundle.
  datatype Output =
    | Chunk(name: string, isEntry: bool, imports: seq<string>, importedCss: seq<string>, codeBytes: nat)
    | Asset(bytes: nat)

  type Bundle = map<string, Output>

  datatype Sizes = Sizes(jsBytes: nat, cssBytes: nat)

  datatype SizesError = NoEntry | MissingCss(file: string)

  predicate IsChunk(b: Bundle, f: string) {
    f in b && b[f].Chunk?
  }

  predicate IsAsset(b: Bundle, f: string) {
    f in b && b[f].Asset?
  }

  // ------------------------------------------------------------------ reachability

  // A chain of static imports through chunks.
  predicate Path(b: Bundle, p: seq<string>) {
    && p != [] && (forall k | 0 <= k < |p| :: IsChunk(b, p[k]))
    && forall k | 0 <= k < |p| - 1 :: p[k + 1] in b[p[k]].imports
  }

  ghost predicate Reachable(b: Bundle, from: string, to: string) {
    exists p :: Path(b, p) && p[0] == from && p[|p| - 1] == to
  }

  ghost function ReachSet(b: Bundle, from: string): set<string> {
    set f | f in b && Reachable(b, from, f)
  }

  ghost function CssSet(b: Bundle, chunks: set<string>): set<string> {
    set f, c | f in chunks && IsChunk(b, f) && c in b[f].importedCss :: c
  }

  lemma ReachesItself(b: Bundle, f: string)
    requires IsChunk(b, f)
    ensures Reachable(b, f, f)
  {
    assert Path(b, [f]);
  }

  lemma ReachesThrough(b: Bundle, from: string, g: string, h: string)
    requires IsChunk(b, from) && g in b[from].imports && Reachable(b, g, h)
    ensures Reachable(b, from, h)
  {
    var p :| Path(b, p) && p[0] == g && p[|p| - 1] == h;
    var q := [from] + p;
    assert forall k | 0 < k < |q| :: q[k] == p[k - 1];
    assert Path(b, q) && q[0] == from && q[|q| - 1] == h;
  }

  predicate Closed(b: Bundle, f: string, seen: set<string>) {
    IsChunk(b, f) ==> forall g | g in b[f].imports && IsChunk(b, g) :: g in seen
  }

  // A set closed under imports holds every path that starts in it.
  lemma {:induction false} PathStaysIn(b: Bundle, p: seq<string>, seen: set<string>)
    requires Path(b, p) && p[0] in seen && forall f | f in seen :: Closed(b, f, seen)
    ensures p[|p| - 1] in seen
    decreases |p|
  {
    if |p| > 1 {
      assert p[1] in b[p[0]].imports && IsChunk(b, p[1]);
      assert Closed(b, p[0], seen);
      assert Path(b, p[1..]) by {
        assert forall k | 0 <= k < |p| - 1 :: p[1..][k] == p[k + 1];
      }
      PathStaysIn(b, p[1..], seen);
    }
  }

  lemma ClosedIsReachSet(b: Bundle, from: string, seen: set<string>)
    requires from in seen && (forall f | f in seen :: Closed(b, f, seen))
    requires forall f | f in seen :: IsChunk(b, f) && Reachable(b, from, f)
    ensures seen == ReachSet(b, from)
  {
    forall f | f in ReachSet(b, from)
      ensures f in seen
    {
      var p :| Path(b, p) && p[0] == from && p[|p| - 1] == f;
      PathStaysIn(b, p, seen);
    }
  }

  // Does the set hold `from` and, with a chunk, every chunk that one imports?
  predicate HoldsImports(b: Bundle, from: string, files: set<string>) {
    && from in files
    && forall f, g | f in files && f in b && b[f].Chunk? && g in b[f].imports && g in b && b[g].Chunk? :: g in files
  }

  // The reachable chunks are the least such set.
  lemma ReachSetIsLeast(b: Bundle, from: string, files: set<string>)
    requires from in b && b[from].Chunk?
    ensures HoldsImports(b, from, ReachSet(b, from))
    ensures HoldsImports(b, from, files) ==> ReachSet(b, from) <= files
  {
    ReachesItself(b, from);
    forall f, g | f in ReachSet(b, from) && IsChunk(b, f) && g in b[f].imports && IsChunk(b, g)
      ensures g in ReachSet(b, from)
    {
      ReachesOn(b, from, f, g);
    }
    if HoldsImports(b, from, files) {
      forall f | f in ReachSet(b, from)
        ensures f in files
      {
        var p :| Path(b, p) && p[0] == from && p[|p| - 1] == f;
        assert forall x | x in files :: Closed(b, x, files);
        PathStaysIn(b, p, files);
      }
    }
  }

  lemma ReachesOn(b: Bundle, from: string, f: string, g: string)
    requires Reachable(b, from, f) && IsChunk(b, f) && g in b[f].imports && IsChunk(b, g)
    ensures Reachable(b, from, g)
  {
    var p :| Path(b, p) && p[0] == from && p[|p| - 1] == f;
    var q := p + [g];
    assert forall k | 0 <= k < |p| :: q[k] == p[k];
    assert Path(b, q) && q[0] == from && q[|q| - 1] == g;
  }

  // The stylesheets of some chunks are those that one of them imports.
  lemma CssIff(b: Bundle, chunks: set<string>, c: string)
    ensures c in CssSet(b, chunks)
            <==> exists f :: f in chunks && f in b && b[f].Chunk? && c in b[f].importedCss
  {
  }

  // ------------------------------------------------------------------------ totals

  function SizeOf(b: Bundle, f: string): nat {
    if f !in b then 0 else match b[f] case Chunk(_, _, _, _, n) => n case Asset(n) => n
  }

  // The sum over a set: each file once, in no order.
  ghost function Total(b: Bundle, files: set<string>): nat {
    if files == {} then 0
    else
      var f :| f in files;
      SizeOf(b, f) + Total(b, files - {f})
  }

  lemma {:induction false} TotalWithout(b: Bundle, files: set<string>, g: string)
    requires g in files
    ensures Total(b, files) == SizeOf(b, g) + Total(b, files - {g})
  {
    var f :| f in files && Total(b, files) == SizeOf(b, f) + Total(b, files - {f});
    if f != g {
      TotalWithout(b, files - {f}, g);
      TotalWithout(b, files - {g}, f);
      assert files - {f} - {g} == files - {g} - {f};
    }
  }

  // A chunk weighs its code, an asset its source; sets without a file in common
  // add up.
  lemma TotalOfOne(b: Bundle, f: string)
    requires f in b
    ensures Total(b, {f}) == match b[f] case Chunk(_, _, _, _, code) => code case Asset(source) => source
    ensures Total(b, {}) == 0
  {
    TotalWithout(b, {f}, f);
    assert {f} - {f} == {};
  }

  lemma {:induction false} TotalAdds(b: Bundle, some: set<string>, others: set<string>)
    requires some !! others
    ensures Total(b, some + others) == Total(b, some) + Total(b, others)
  {
    if some == {} {
      assert some + others == others;
    } else {
      var f :| f in some;
      TotalWithout(b, some, f);
      TotalWithout(b, some + others, f);
      assert some + others - {f} == (some - {f}) + others;
      TotalAdds(b, some - {f}, others);
    }
  }

  // --------------------------------------------------------------------- the visit

  class Traversal {
    const bundle: Bundle
    var chunkFiles: set<string>
    var cssFiles: set<string>

    constructor (bundle: Bundle)
      ensures this.bundle == bundle && chunkFiles == {} && cssFiles == {}
    {
      this.bundle := bundle;
      chunkFiles, cssFiles := {}, {};
    }

    ghost predicate Valid()
      reads this
    {
      (forall f | f in chunkFiles :: IsChunk(bundle, f)) && cssFiles == CssSet(bundle, chunkFiles)
    }

    // Adds the chunk and all it reaches that was not there yet; everything
    // added is reachable and has its own imports seen.
    method Visit(file: string)
      requires Valid() && IsChunk(bundle, file)
      modifies this
      ensures Valid() && old(chunkFiles) <= chunkFiles && file in chunkFiles
      ensures forall f | f in chunkFiles && f !in old(chunkFiles) ::
                Reachable(bundle, file, f) && Closed(bundle, f, chunkFiles)
      decreases bundle.Keys - chunkFiles
    {
      if file in chunkFiles { return; }
      ghost var before := chunkFiles;
      chunkFiles := chunkFiles + {file};
      var css := bundle[file].importedCss;
      var i := 0;
      while i < |css|
        modifies this`cssFiles
        invariant i <= |css|
        invariant cssFiles == old(cssFiles) + set c | c in css[..i]
      {
        cssFiles := cssFiles + {css[i]};
        i := i + 1;
      }
      assert css[..i] == css;
      assert CssSet(bundle, chunkFiles) == CssSet(bundle, before) + set c | c in css;
      ReachesItself(bundle, file);
      var imports := bundle[file].imports;
      i := 0;
      while i < |imports|
        invariant i <= |imports| && Valid() && before + {file} <= chunkFiles
        invariant forall f | f in chunkFiles && f !in before ::
                    Reachable(bundle, file, f) && (f != file ==> Closed(bundle, f, chunkFiles))
        invariant forall k | 0 <= k < i && IsChunk(bundle, imports[k]) :: imports[k] in chunkFiles
      {
        var dependency := imports[i];
        if IsChunk(bundle, dependency) {
          ghost var seen := chunkFiles;
          Visit(dependency);
          forall f | f in chunkFiles && f !in seen
            ensures Reachable(bundle, file, f)
          {
            ReachesThrough(bundle, file, dependency, f);
          }
        }
        i := i + 1;
      }
      assert Closed(bundle, file, chunkFiles);
    }
  }

  // Sum the sizes of a set of files, one by one.
  method SumSizes(b: Bundle, files: set<string>) returns (total: nat)
    ensures total == Total(b, files)
  {
    var todo := files;
    total := 0;
    while todo != {}
      invariant todo <= files && total + Total(b, todo) == Total(b, files)
    {
      var f :| f in todo;
      TotalWithout(b, todo, f);
      total := total + SizeOf(b, f);
      todo := todo - {f};
    }
  }

  predicate IsEntry(b: Bundle, f: string, entryName: string) {
    IsChunk(b, f) && b[f].isEntry && b[f].name == entryName
  }

  // The entry is the emitted entry chunk of that name.
  lemma EntryIff(b: Bundle, f: string, entryName: string)
    ensures IsEntry(b, f, entryName) <==> f in b && b[f].Chunk? && b[f].isEntry && b[f].name == entryName
  {
  }

  // The budgeted sizes for a given entry chunk: every reachable chunk and every
  // stylesheet one of them imports, once each.
  ghost predicate SizesFrom(b: Bundle, entry: string, sizes: Sizes) {
    && sizes.jsBytes == Total(b, ReachSet(b, entry))
    && sizes.cssBytes == Total(b, CssSet(b, ReachSet(b, entry)))
    && forall c | c in CssSet(b, ReachSet(b, entry)) :: IsAsset(b, c)
  }

  // `keys` is the bundle's own order, which decides between entries of the same
  // name.
  method InitialBundleSizes(b: Bundle, keys: seq<string>, entryName: string) returns (r: Result<Sizes, SizesError>)
    requires forall f :: f in keys <==> f in b
    ensures r == Err(NoEntry) <==> forall f | f in b :: !IsEntry(b, f, entryName)
    ensures r != Err(NoEntry) ==>
              exists k | 0 <= k < |keys| && IsEntry(b, keys[k], entryName)
                  && (forall j | 0 <= j < k :: !IsEntry(b, keys[j], entryName)) ::
                match r
                case Ok(sizes) => SizesFrom(b, keys[k], sizes)
                case Err(error) =>
                  && error.MissingCss? && error.file in CssSet(b, ReachSet(b, keys[k]))
                  && !IsAsset(b, error.file)
  {
    var k := 0;
    while k < |keys| && !IsEntry(b, keys[k], entryName)
      invariant k <= |keys| && forall j | 0 <= j < k :: !IsEntry(b, keys[j], entryName)
    {
      k := k + 1;
    }
    if k == |keys| { return Err(NoEntry); }
    var traversal := new Traversal(b);
    traversal.Visit(keys[k]);
    ClosedIsReachSet(b, keys[k], traversal.chunkFiles);
    var jsBytes := SumSizes(b, traversal.chunkFiles);
    var css := traversal.cssFiles;
    while css != {}
      invariant css <= traversal.cssFiles
      invariant forall c | c in traversal.cssFiles && c !in css :: IsAsset(b, c)
    {
      var c :| c in css;
      if !IsAsset(b, c) { return Err(MissingCss(c)); }
      css := css - {c};
    }
    var cssBytes := SumSizes(b, traversal.cssFiles);
    return Ok(Sizes(jsBytes, cssBytes));
  }

  // ------------------------------------------------------------- import order

  // The same outputs up to the order and repetition of imports and stylesheets.
  ghost predicate SameGraph(a: Bundle, b: Bundle) {
    && a.Keys == b.Keys
    && forall f | f in a ::
         match a[f]
         case Asset(n) => b[f] == a[f]
         case Chunk(_, _, imports, css, n) =>
           && b[f].Chunk? && b[f].codeBytes == n
           && (forall g :: g in imports <==> g in b[f].imports) && (forall c :: c in css <==> c in b[f].importedCss)
  }

  lemma SamePath(a: Bundle, b: Bundle, p: seq<string>)
    requires SameGraph(a, b) && Path(a, p)
    ensures Path(b, p)
  {
    forall k | 0 <= k < |p| - 1
      ensures p[k + 1] in b[p[k]].imports
    {
      assert IsChunk(a, p[k]) && p[k + 1] in a[p[k]].imports;
    }
    assert forall k | 0 <= k < |p| :: IsChunk(a, p[k]);
  }

  lemma SameGraphBack(a: Bundle, b: Bundle)
    requires SameGraph(a, b)
    ensures SameGraph(b, a)
  {
  }

  lemma SameReach(a: Bundle, b: Bundle, entry: string)
    requires SameGraph(a, b)
    ensures ReachSet(a, entry) <= ReachSet(b, entry)
  {
    forall f | f in ReachSet(a, entry)
      ensures f in ReachSet(b, entry)
    {
      var p :| Path(a, p) && p[0] == entry && p[|p| - 1] == f;
      SamePath(a, b, p);
    }
  }

  lemma {:induction false} SameTotal(a: Bundle, b: Bundle, files: set<string>)
    requires SameGraph(a, b)
    ensures Total(a, files) == Total(b, files)
  {
    if files != {} {
      var f :| f in files;
      TotalWithout(a, files, f);
      TotalWithout(b, files, f);
      SameTotal(a, b, files - {f});
      assert SizeOf(a, f) == SizeOf(b, f);
    }
  }

  // The order in which imports are listed, and listing one twice, changes no
  // reachable chunk, no stylesheet and no total.
  lemma ImportOrderDoesNotMatter(a: Bundle, b: Bundle, entry: string, sizes: Sizes)
    requires SameGraph(a, b)
    ensures ReachSet(a, entry) == ReachSet(b, entry)
    ensures CssSet(a, ReachSet(a, entry)) == CssSet(b, ReachSet(b, entry))
    ensures SizesFrom(a, entry, sizes) <==> SizesFrom(b, entry, sizes)
  {
    SameGraphBack(a, b);
    SameReach(a, b, entry);
    SameReach(b, a, entry);
    var reach := ReachSet(a, entry);
    SameCss(a, b, reach);
    SameTotal(a, b, reach);
    SameTotal(a, b, CssSet(a, reach));
    assert forall c :: IsAsset(a, c) <==> IsAsset(b, c);
    hide ReachSet, CssSet, Total, SameGraph;
  }

  lemma SameCss(a: Bundle, b: Bundle, chunks: set<string>)
    requires SameGraph(a, b)
    ensures CssSet(a, chunks) == CssSet(b, chunks)
  {
    assert forall f | f in chunks && IsChunk(a, f) :: forall c :: c in a[f].importedCss <==> c in b[f].importedCss;
    assert forall f | f in chunks :: IsChunk(a, f) <==> IsChunk(b, f);
  }
}
