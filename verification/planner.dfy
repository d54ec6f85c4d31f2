/**
 The batch planner of area_weighted_raster_stats_using_shapefile.py
 (`construct_lists_for_parallel_function`). Given the netcdf paths and the
 shapefile paths a directory listing found, it builds four index-aligned
 lists, one entry per unit of work: the shapefile, the netcdf, the
 statistical operator and the output directory.

 Although the shapefile list is sorted and the netcdf list is not, the
 pairing at each index is an exact cross product: sorting the repeated
 shapefile list puts each shapefile in one contiguous block as long as the
 netcdf list, and the repeated netcdf list runs through the netcdfs once per
 block (SortRepeatIsStretch, PairsAreCrossProduct, CrossProductCounts).
 */
module Planner {
  import opened Text
  import opened StringOrder
  import opened Replicate
  import Naming

  /** The four lists `construct_lists_for_parallel_function` returns, in
      its order: shapefiles, netcdfs, operators, output directories. */
  datatype Batch = Batch(
    shapefileList: seq<string>,
    netcdfList: seq<string>,
    operatorList: seq<string>,
    outputDirList: seq<string>)
  {
    /** All four lists have one entry per unit of work. */
    predicate Aligned()
    {
      |shapefileList| == |netcdfList| == |operatorList| == |outputDirList|
    }
  }

  /** The (shapefile, netcdf) pair each unit of work processes: `pool.map`
      hands entry `i` of both lists to the same call. */
  function Pairs(b: Batch): seq<(string, string)>
  {
    Zip(b.shapefileList, b.netcdfList)
  }

  /** The arguments of one `area_weighted_shapefile_rasterstats` call. */
  datatype Unit = Unit(shapefile: string, netcdf: string, operator: string, outputDir: string)

  /** The calls `pool.map` makes over the four lists: call `i` takes entry
      `i` of every list, and there are as many calls as the shortest list
      has entries (pathos maps over `zip` of its argument lists). */
  function Units(b: Batch): seq<Unit>
  {
    var n1 := if |b.shapefileList| <= |b.netcdfList| then |b.shapefileList| else |b.netcdfList|;
    var n2 := if |b.operatorList| <= |b.outputDirList| then |b.operatorList| else |b.outputDirList|;
    var n := if n1 <= n2 then n1 else n2;
    seq(n, i requires 0 <= i < n =>
      Unit(b.shapefileList[i], b.netcdfList[i], b.operatorList[i], b.outputDirList[i]))
  }

  const Mean: string := "mean"
  const Sum: string := "sum"

  /** The operator rule: an area mean for netcdfs whose full path contains
      "tas" (air temperature), an area sum for everything else. */
  function OperatorFor(netcdf: string): (op: string)
    ensures op == Mean <==> exists k :: OccursAt(netcdf, "tas", k)
    ensures op == Mean || op == Sum
  {
    if Contains(netcdf, "tas") then Mean else Sum
  }

  /** The operator loop over the netcdf list, one operator per entry. */
  function Operators(netcdfs: seq<string>): (ops: seq<string>)
    ensures |ops| == |netcdfs|
    ensures forall i :: 0 <= i < |ops| ==> ops[i] == OperatorFor(netcdfs[i])
  {
    if netcdfs == [] then []
    else
      var n := |netcdfs| - 1;
      Operators(netcdfs[..n]) + [OperatorFor(netcdfs[n])]
  }

  /** `construct_lists_for_parallel_function`, with the two directory
      listings passed in as `netcdfs` and `shapefiles`. */
  function Plan(netcdfs: seq<string>, shapefiles: seq<string>, outDir: string): (b: Batch)
    ensures b.Aligned()
    ensures netcdfs == [] || shapefiles == [] ==> b == Batch([], [], [], [])
    ensures forall i :: 0 <= i < |b.outputDirList| ==> b.outputDirList[i] == outDir
    ensures Sorted(b.shapefileList)
    ensures forall i :: 0 <= i < |b.operatorList| ==> b.operatorList[i] == OperatorFor(b.netcdfList[i])
  {
    RepeatLength(shapefiles, |netcdfs|);
    RepeatLength(netcdfs, |shapefiles|);
    var shapefileList := Sort(Repeat(shapefiles, |netcdfs|));
    var netcdfList := Repeat(netcdfs, |shapefiles|);
    var outputDirList := Repeat([outDir], |shapefileList|);
    RepeatLength([outDir], |shapefileList|);
    assert forall i :: 0 <= i < |outputDirList| ==> outputDirList[i] == outDir by {
      forall i | 0 <= i < |outputDirList|
        ensures outputDirList[i] == outDir
      {
        RepeatAt([outDir], |shapefileList|, i);
      }
    }
    Batch(shapefileList, netcdfList, Operators(netcdfList), outputDirList)
  }

  /** One unit of work per (netcdf, shapefile) combination of the listings. */
  lemma {:induction false} PlanSize(netcdfs: seq<string>, shapefiles: seq<string>, outDir: string)
    ensures |Plan(netcdfs, shapefiles, outDir).shapefileList| == |netcdfs| * |shapefiles|
  {
    var repeated := Repeat(shapefiles, |netcdfs|);
    RepeatLength(shapefiles, |netcdfs|);
    assert Plan(netcdfs, shapefiles, outDir).shapefileList == Sort(repeated);
    assert |Sort(repeated)| == |repeated|;
    assert |shapefiles| * |netcdfs| == |netcdfs| * |shapefiles|;
  }

  /** Position `i` of the plan pairs the `(i div R)`-th shapefile of the
      sorted listing with netcdf `i mod R` of the listing, where R is the
      number of netcdfs. */
  lemma {:induction false} PlanAt(netcdfs: seq<string>, shapefiles: seq<string>, outDir: string, i: int)
    requires 0 <= i < |Plan(netcdfs, shapefiles, outDir).shapefileList|
    ensures |netcdfs| > 0 && 0 <= i / |netcdfs| < |Sort(shapefiles)| && 0 <= i % |netcdfs| < |netcdfs|
    ensures Plan(netcdfs, shapefiles, outDir).shapefileList[i] == Sort(shapefiles)[i / |netcdfs|]
    ensures Plan(netcdfs, shapefiles, outDir).netcdfList[i] == netcdfs[i % |netcdfs|]
  {
    var b := Plan(netcdfs, shapefiles, outDir);
    ShapefileBlocks(netcdfs, shapefiles, outDir);
    StretchAt(Sort(shapefiles), |netcdfs|, i);
    assert b.netcdfList == Repeat(netcdfs, |shapefiles|);
    RepeatAt(netcdfs, |shapefiles|, i);
  }

  /** `pool.map` makes one call per (netcdf, shapefile) combination. */
  lemma {:induction false} UnitsSize(netcdfs: seq<string>, shapefiles: seq<string>, outDir: string)
    ensures |Units(Plan(netcdfs, shapefiles, outDir))| == |netcdfs| * |shapefiles|
  {
    PlanSize(netcdfs, shapefiles, outDir);
  }

  /** Call `i` of `pool.map` processes the `(i div R)`-th shapefile of the
      sorted listing and netcdf `i mod R` of the listing, with that netcdf's
      operator and the output directory. */
  lemma {:induction false} UnitAt(netcdfs: seq<string>, shapefiles: seq<string>, outDir: string, i: int)
    requires 0 <= i < |Units(Plan(netcdfs, shapefiles, outDir))|
    ensures |netcdfs| > 0 && 0 <= i / |netcdfs| < |Sort(shapefiles)| && 0 <= i % |netcdfs| < |netcdfs|
    ensures Units(Plan(netcdfs, shapefiles, outDir))[i]
         == Unit(Sort(shapefiles)[i / |netcdfs|], netcdfs[i % |netcdfs|],
                 OperatorFor(netcdfs[i % |netcdfs|]), outDir)
  {
    var b := Plan(netcdfs, shapefiles, outDir);
    PlanAt(netcdfs, shapefiles, outDir, i);
    assert b.operatorList[i] == OperatorFor(b.netcdfList[i]);
    assert b.outputDirList[i] == outDir;
  }

  /** The shapefile list holds every shapefile once per netcdf for each time
      it was listed, and nothing else. */
  lemma {:induction false} ShapefileCounts(netcdfs: seq<string>, shapefiles: seq<string>, outDir: string,
                        shapefile: string)
    ensures multiset(Plan(netcdfs, shapefiles, outDir).shapefileList)[shapefile]
      == |netcdfs| * multiset(shapefiles)[shapefile]
  {
    RepeatCount(shapefiles, |netcdfs|, shapefile);
  }

  /** The shapefile list is the sorted listing with each entry repeated once
      per netcdf in a row: one contiguous block per listed shapefile. */
  lemma {:induction false} ShapefileBlocks(netcdfs: seq<string>, shapefiles: seq<string>, outDir: string)
    ensures Plan(netcdfs, shapefiles, outDir).shapefileList == Stretch(Sort(shapefiles), |netcdfs|)
  {
    SortRepeatIsStretch(shapefiles, |netcdfs|);
  }

  /** Sorting R copies of the shapefile listing gives each shapefile of the
      sorted listing R times in a row. */
  lemma {:induction false} SortRepeatIsStretch(shapefiles: seq<string>, copies: nat)
    ensures Sort(Repeat(shapefiles, copies)) == Stretch(Sort(shapefiles), copies)
  {
    var sorted := Sort(shapefiles);
    var blocks := Stretch(sorted, copies);
    StretchSorted(sorted, copies);
    assert multiset(blocks) == multiset(Repeat(shapefiles, copies)) by {
      forall s
        ensures multiset(blocks)[s] == multiset(Repeat(shapefiles, copies))[s]
      {
        StretchCount(sorted, copies, s);
        RepeatCount(shapefiles, copies, s);
      }
    }
    SortIsTheSortedPermutation(Repeat(shapefiles, copies), blocks);
  }

  /** Stretching keeps a sorted list sorted. */
  lemma {:induction false} StretchSorted(xs: seq<string>, n: nat)
    requires Sorted(xs)
    ensures Sorted(Stretch(xs, n))
  {
    var blocks := Stretch(xs, n);
    forall i, j | 0 <= i < j < |blocks|
      ensures LessEq(blocks[i], blocks[j])
    {
      StretchAt(xs, n, i);
      StretchAt(xs, n, j);
      var a, c := i / n, j / n;
      DivMonotone(i, j, n);
      if a < c {
        assert LessEq(xs[a], xs[c]);
      } else {
        LessEqReflexive(xs[a]);
      }
    }
  }

  /** The (shapefile, netcdf) pairs of the plan are the nested-loop cross
      product: for each shapefile in sorted order, that shapefile with every
      netcdf in listing order. So although only the shapefile list is
      sorted, the two lists stay matched. */
  lemma {:induction false} PairsAreCrossProduct(netcdfs: seq<string>, shapefiles: seq<string>,
                                                outDir: string, sorted: seq<string>)
    requires Sorted(sorted) && multiset(sorted) == multiset(shapefiles)
    ensures Pairs(Plan(netcdfs, shapefiles, outDir)) == Product(sorted, netcdfs)
  {
    SortIsTheSortedPermutation(shapefiles, sorted);
    SortRepeatIsStretch(shapefiles, |netcdfs|);
    assert |sorted| == |shapefiles|;
    ZipStretchRepeat(sorted, netcdfs);
  }

  /** Every (shapefile, netcdf) combination is planned as often as the
      shapefile occurs in its listing times the netcdf in its listing. */
  lemma {:induction false} CrossProductCounts(netcdfs: seq<string>, shapefiles: seq<string>, outDir: string,
                           shapefile: string, netcdf: string)
    ensures multiset(Pairs(Plan(netcdfs, shapefiles, outDir)))[(shapefile, netcdf)]
      == multiset(shapefiles)[shapefile] * multiset(netcdfs)[netcdf]
  {
    var b := Plan(netcdfs, shapefiles, outDir);
    var sorted := Sort(shapefiles);
    PairsAreCrossProduct(netcdfs, shapefiles, outDir, sorted);
    ProductCount(sorted, netcdfs, shapefile, netcdf);
    assert multiset(Pairs(b))[(shapefile, netcdf)] == multiset(Product(sorted, netcdfs))[(shapefile, netcdf)];
    assert multiset(sorted)[shapefile] == multiset(shapefiles)[shapefile];
  }

  /** A (shapefile, netcdf) combination is planned at all exactly when both
      were listed. */
  lemma {:induction false} PlannedIffListed(netcdfs: seq<string>, shapefiles: seq<string>, outDir: string,
                                            shapefile: string, netcdf: string)
    ensures (shapefile, netcdf) in Pairs(Plan(netcdfs, shapefiles, outDir))
        <==> shapefile in shapefiles && netcdf in netcdfs
  {
    CrossProductCounts(netcdfs, shapefiles, outDir, shapefile, netcdf);
    PositiveProduct(multiset(shapefiles)[shapefile], multiset(netcdfs)[netcdf]);
  }

  /** With no path listed twice, every (shapefile, netcdf) combination is
      planned exactly once and nothing else is planned. */
  lemma {:induction false} CrossProductExactlyOnce(netcdfs: seq<string>, shapefiles: seq<string>, outDir: string,
                                shapefile: string, netcdf: string)
    requires Distinct(netcdfs) && Distinct(shapefiles)
    ensures multiset(Pairs(Plan(netcdfs, shapefiles, outDir)))[(shapefile, netcdf)]
      == if shapefile in shapefiles && netcdf in netcdfs then 1 else 0
  {
    CrossProductCounts(netcdfs, shapefiles, outDir, shapefile, netcdf);
    DistinctCount(shapefiles, shapefile);
    DistinctCount(netcdfs, netcdf);
  }

  /** Two different netcdfs in one directory whose file names agree up to
      the first `_`, and which the operator rule gives the same operator
      (both full paths contain "tas", or neither does), make the units of
      work for one shapefile write the same output file, so one overwrites
      the other. */
  lemma {:induction false} SharedTokenOverwrites(outDir: string, shapefile: string, dir: string,
                                                 token: string, rest1: string, rest2: string,
                                                 format: Naming.Format)
    requires '/' !in token && '_' !in token && '/' !in rest1 && '/' !in rest2
    requires rest1 != rest2
    requires OperatorFor(dir + "/" + token + "_" + rest1) == OperatorFor(dir + "/" + token + "_" + rest2)
    ensures dir + "/" + token + "_" + rest1 != dir + "/" + token + "_" + rest2
    ensures var netcdf1, netcdf2 := dir + "/" + token + "_" + rest1, dir + "/" + token + "_" + rest2;
      Naming.OutputName(outDir, shapefile, netcdf1, OperatorFor(netcdf1), format)
        == Naming.OutputName(outDir, shapefile, netcdf2, OperatorFor(netcdf2), format)
  {
    var netcdf1 := dir + "/" + token + "_" + rest1;
    Naming.SharedTokenCollides(outDir, shapefile, dir, token, rest1, rest2, OperatorFor(netcdf1), format);
  }
}
