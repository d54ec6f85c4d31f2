/**
 A worked example of the planner and the output names: two netcdfs (one
 temperature, one precipitation) and two catchment shapefiles.
 */
module Scenario {
  import Text
  import StringOrder
  import Replicate
  import opened Planner
  import opened Naming

  const Tas: string := "/in/tas_1950.nc"
  const Pr: string := "/in/pr_1950.nc"
  const BasinA: string := "/in/basinA.shp"
  const BasinB: string := "/in/basinB.shp"
  const Out: string := "/out"
  const Tas1951: string := "/in/tas_1951.nc"

  /** Two netcdfs and two shapefiles listed in descending order: four units
      of work, the smaller shapefile first, each shapefile paired with both
      netcdfs in listing order. */
  lemma {:induction false} TwoByTwo(t: string, p: string, a: string, b: string, out: string)
    requires StringOrder.LessEq(a, b)
    ensures Plan([t, p], [b, a], out)
         == Batch([a, a, b, b], [t, p, t, p],
                  [OperatorFor(t), OperatorFor(p), OperatorFor(t), OperatorFor(p)],
                  [out, out, out, out])
  {
    TwoByTwoShapefiles(t, p, a, b, out);
    TwoByTwoNetcdfs(t, p, a, b, out);
    TwoByTwoOperators(t, p, a, b, out);
    TwoByTwoDirectories(t, p, a, b, out);
  }

  lemma {:induction false} TwoByTwoShapefiles(t: string, p: string, a: string, b: string, out: string)
    requires StringOrder.LessEq(a, b)
    ensures Plan([t, p], [b, a], out).shapefileList == [a, a, b, b]
  {
    assert Replicate.Repeat([b, a], 1) == [b, a];
    assert Replicate.Repeat([b, a], 2) == [b, a, b, a];
    SortTwoCopies(a, b);
  }

  lemma {:induction false} TwoByTwoNetcdfs(t: string, p: string, a: string, b: string, out: string)
    ensures Plan([t, p], [b, a], out).netcdfList == [t, p, t, p]
  {
    assert Replicate.Repeat([t, p], 1) == [t, p];
    assert Replicate.Repeat([t, p], 2) == [t, p, t, p];
  }

  lemma {:induction false} TwoByTwoOperators(t: string, p: string, a: string, b: string, out: string)
    ensures Plan([t, p], [b, a], out).operatorList
         == [OperatorFor(t), OperatorFor(p), OperatorFor(t), OperatorFor(p)]
  {
    TwoByTwoNetcdfs(t, p, a, b, out);
    var ops := Plan([t, p], [b, a], out).operatorList;
    assert |ops| == 4;
    assert ops[0] == OperatorFor(t) && ops[1] == OperatorFor(p);
    assert ops[2] == OperatorFor(t) && ops[3] == OperatorFor(p);
    Four(ops, OperatorFor(t), OperatorFor(p), OperatorFor(t), OperatorFor(p));
  }

  lemma {:induction false} TwoByTwoDirectories(t: string, p: string, a: string, b: string, out: string)
    ensures Plan([t, p], [b, a], out).outputDirList == [out, out, out, out]
  {
    var dirs := Plan([t, p], [b, a], out).outputDirList;
    PlanSize([t, p], [b, a], out);
    assert |dirs| == 4;
    Four(dirs, out, out, out, out);
  }

  lemma {:induction false} Four<T>(s: seq<T>, w: T, x: T, y: T, z: T)
    requires |s| == 4 && s[0] == w && s[1] == x && s[2] == y && s[3] == z
    ensures s == [w, x, y, z]
  {
  }

  /** Sorting two copies each of two ordered strings. */
  lemma {:induction false} SortTwoCopies(a: string, b: string)
    requires StringOrder.LessEq(a, b)
    ensures StringOrder.Sort([b, a, b, a]) == [a, a, b, b]
  {
    TwoBlocksSorted(a, b);
    TwoBlocksPermute(a, b);
    StringOrder.SortIsTheSortedPermutation([b, a, b, a], [a, a, b, b]);
  }

  lemma {:induction false} TwoBlocksSorted(a: string, b: string)
    requires StringOrder.LessEq(a, b)
    ensures StringOrder.Sorted([a, a, b, b])
  {
    var sorted := [a, a, b, b];
    StringOrder.LessEqReflexive(a);
    StringOrder.LessEqReflexive(b);
    forall i, j | 0 <= i < j < 4
      ensures StringOrder.LessEq(sorted[i], sorted[j])
    {
      if i < 2 && j < 2 {
        assert sorted[i] == a && sorted[j] == a;
      } else if i < 2 {
        assert sorted[i] == a && sorted[j] == b;
      } else {
        assert sorted[i] == b && sorted[j] == b;
      }
    }
  }

  lemma {:induction false} TwoBlocksPermute(a: string, b: string)
    ensures multiset([a, a, b, b]) == multiset([b, a, b, a])
  {
    assert multiset([a, a, b, b]) == multiset{a, a, b, b};
    assert multiset([b, a, b, a]) == multiset{b, a, b, a};
  }

  /** The listing order of the shapefiles does not matter: four units of
      work, basin A first, each basin paired with both netcdfs in listing
      order, temperature averaged and precipitation summed. */
  lemma {:induction false} TwoByTwoPlan()
    ensures Plan([Tas, Pr], [BasinB, BasinA], Out)
         == Batch([BasinA, BasinA, BasinB, BasinB],
                  [Tas, Pr, Tas, Pr],
                  ["mean", "sum", "mean", "sum"],
                  [Out, Out, Out, Out])
  {
    BasinAComesFirst();
    TwoByTwo(Tas, Pr, BasinA, BasinB, Out);
    TasIsAveraged();
    PrIsSummed();
  }

  lemma {:induction false} TasIsAveraged()
    ensures OperatorFor(Tas) == "mean"
  {
    assert Text.OccursAt(Tas, "tas", 4);
  }

  lemma {:induction false} PrIsSummed()
    ensures OperatorFor(Pr) == "sum"
  {
    assert 't' !in Pr;
    Text.MissingFirstCharacter(Pr, "tas");
  }

  lemma {:induction false} BasinAComesFirst()
    ensures StringOrder.LessEq(BasinA, BasinB)
  {
    assert BasinA == "/in/basin" + "A.shp";
    assert BasinB == "/in/basin" + "B.shp";
    StringOrder.LessEqCommonPrefix("/in/basin", "A.shp", "B.shp");
  }

  lemma {:induction false} BasinAStem()
    ensures Stem(BasinA) == "basinA"
  {
    assert BasinA == "/in" + "/" + "basinA" + "." + "shp";
    StemOf("/in", "basinA", "shp");
  }

  lemma {:induction false} BasinBStem()
    ensures Stem(BasinB) == "basinB"
  {
    assert BasinB == "/in" + "/" + "basinB" + "." + "shp";
    StemOf("/in", "basinB", "shp");
  }

  lemma {:induction false} TasToken()
    ensures Token(Tas) == "tas"
  {
    assert Tas == "/in" + "/" + "tas" + "_" + "1950.nc";
    TokenOf("/in", "tas", "1950.nc");
  }

  lemma {:induction false} PrToken()
    ensures Token(Pr) == "pr"
  {
    assert Pr == "/in" + "/" + "pr" + "_" + "1950.nc";
    TokenOf("/in", "pr", "1950.nc");
  }

  /** The four file names the example writes. */
  lemma {:induction false} TwoByTwoNames()
    ensures OutputName(Out, BasinA, Tas, "mean", NetCdf) == Out + "/" + "basinA" + "_" + "tas" + "_" + "mean" + ".nc"
    ensures OutputName(Out, BasinA, Pr, "sum", NetCdf) == Out + "/" + "basinA" + "_" + "pr" + "_" + "sum" + ".nc"
    ensures OutputName(Out, BasinB, Tas, "mean", Csv) == Out + "/" + "basinB" + "_" + "tas" + "_" + "mean" + ".csv"
    ensures OutputName(Out, BasinB, Pr, "sum", Csv) == Out + "/" + "basinB" + "_" + "pr" + "_" + "sum" + ".csv"
  {
    BasinAStem();
    BasinBStem();
    TasToken();
    PrToken();
  }

  /** The two temperature years `tas_1950.nc` and `tas_1951.nc` share the
      token `tas` and both get the mean, so both write
      `/out/basinA_tas_mean.nc`. */
  lemma {:induction false} TasYearsCollide()
    ensures Tas != Tas1951
    ensures OutputName(Out, BasinA, Tas, OperatorFor(Tas), NetCdf)
         == OutputName(Out, BasinA, Tas1951, OperatorFor(Tas1951), NetCdf)
  {
    assert Tas == "/in" + "/" + "tas" + "_" + "1950.nc";
    assert Tas1951 == "/in" + "/" + "tas" + "_" + "1951.nc";
    assert "1950.nc"[3] != "1951.nc"[3];
    assert Text.OccursAt(Tas, "tas", 4);
    assert Text.OccursAt(Tas1951, "tas", 4);
    SharedTokenOverwrites(Out, BasinA, "/in", "tas", "1950.nc", "1951.nc", NetCdf);
  }

  const PrTasmin: string := "/in/pr_tasmin.nc"

  lemma {:induction false} PrTasminToken()
    ensures Token(PrTasmin) == "pr"
  {
    assert PrTasmin == "/in" + "/" + "pr" + "_" + "tasmin.nc";
    TokenOf("/in", "pr", "tasmin.nc");
  }

  lemma {:induction false} PrTasminIsAveraged()
    ensures OperatorFor(PrTasmin) == "mean"
  {
    assert Text.OccursAt(PrTasmin, "tas", 7);
  }

  /** A shared token alone does not collide: `pr_1950.nc` and
      `pr_tasmin.nc` share the token `pr`, but only the second full path
      contains "tas", so they get different operators and write
      `/out/basinA_pr_sum.nc` and `/out/basinA_pr_mean.nc`. */
  lemma {:induction false} SharedTokenDifferentOperators()
    ensures Token(Pr) == Token(PrTasmin)
    ensures OperatorFor(Pr) == "sum" && OperatorFor(PrTasmin) == "mean"
    ensures OutputName(Out, BasinA, Pr, OperatorFor(Pr), NetCdf)
         != OutputName(Out, BasinA, PrTasmin, OperatorFor(PrTasmin), NetCdf)
  {
    PrToken();
    PrTasminToken();
    PrIsSummed();
    PrTasminIsAveraged();
    var stem := Stem(BasinA);
    assert |NameOf(Out, stem, "pr", "sum", NetCdf)| != |NameOf(Out, stem, "pr", "mean", NetCdf)|;
  }
}
