/**
 * read_data of mktree.c: after the checks on the file name and the number
 * of points asked for, the loaded points are shuffled (unless every point
 * is for testing) and copied into a training set made of the first
 * no_of_points of them and a test set made of the rest. The file itself
 * is not modelled: whether it opens is a parameter and the points
 * load_points reads from it are given as an array.
 */
module Datasets {
  import opened Wrappers
  import opened Oc1
  import Util
  import LoadData

  const NoFileName := "Read_Data : No data filename specified."
  const InvalidCount := "Read_Data : Invalid number of points to be loaded."
  const CannotOpen := "Read_Data : Data file can not be opened."
  const Insufficient := "Read_Data : Insufficient data in input file."

  /** The training and the test points. */
  datatype Sets = Sets(train: seq<Point>, test: seq<Point>)

  /**
   * How many of count loaded points are for training: 0 asks for all of
   * them, -1 for none (every point is for testing), and any other number
   * for exactly that many.
   */
  function TrainCount(noOfPoints: int, count: nat): (r: nat)
    requires -1 <= noOfPoints <= count
    ensures r <= count
    ensures noOfPoints == 0 ==> r == count
    ensures noOfPoints == -1 ==> r == 0
    ensures noOfPoints > 0 ==> r == noOfPoints
  {
    if noOfPoints == 0 || noOfPoints == count then count
    else if noOfPoints == -1 then 0
    else noOfPoints
  }

  /** Whether read_data gets past its checks and so shuffles the points. */
  predicate Shuffles(inputFile: string, noOfPoints: int, opens: bool)
  {
    inputFile != "" && noOfPoints >= -1 && opens && noOfPoints != -1
  }

  /**
   * read_data: fatal on an empty file name, on a count below -1, on a file
   * that does not open and on a count larger than the number of points
   * loaded, in that order. Otherwise the training and test sets are fresh
   * copies of the loaded points in their shuffled order, the first
   * TrainCount of them for training.
   */
  method ReadData(inputFile: string, noOfPoints: int, opens: bool, points: array<Point>, rng: Util.Oracle)
    returns (r: Result<Sets>)
    requires rng.Valid()
    modifies points, rng`index
    ensures inputFile == "" ==> r == Fatal(NoFileName)
    ensures inputFile != "" && noOfPoints < -1 ==> r == Fatal(InvalidCount)
    ensures inputFile != "" && noOfPoints >= -1 && !opens ==> r == Fatal(CannotOpen)
    ensures inputFile != "" && noOfPoints >= -1 && opens && noOfPoints > points.Length ==> r == Fatal(Insufficient)
    ensures r.Ok? <==> inputFile != "" && -1 <= noOfPoints <= points.Length && opens
    ensures Shuffles(inputFile, noOfPoints, opens) ==>
      points[..] == LoadData.ShuffledTo(old(points[..]), points.Length, rng.draws, old(rng.index), points.Length)
    ensures !Shuffles(inputFile, noOfPoints, opens) ==> points[..] == old(points[..])
    ensures multiset(points[..]) == multiset(old(points[..]))
    ensures r.Ok? ==> |r.value.train| == TrainCount(noOfPoints, points.Length)
    ensures r.Ok? ==> Snapshot(r.value.train + r.value.test, Samples(points[..]))
    ensures r.Ok? ==> Distinct(r.value.train) && Distinct(r.value.test)
    ensures r.Ok? ==> forall p :: p in r.value.train || p in r.value.test ==> fresh(p)
  {
    if |inputFile| == 0 {
      return Fatal(NoFileName);
    }
    if noOfPoints < -1 {
      return Fatal(InvalidCount);
    }
    if !opens {
      return Fatal(CannotOpen);
    }
    var count := points.Length;
    if noOfPoints != -1 {
      LoadData.ShufflePoints(points, count, rng);
    }
    if noOfPoints > count {
      return Fatal(Insufficient);
    }
    var sets := SplitSets(points, TrainCount(noOfPoints, count));
    r := Ok(sets);
  }

  /** The training and test sets: copies of the first noOfTrainPoints points and of the rest. */
  method SplitSets(points: array<Point>, noOfTrainPoints: nat) returns (sets: Sets)
    requires noOfTrainPoints <= points.Length
    ensures |sets.train| == noOfTrainPoints && Snapshot(sets.train + sets.test, Samples(points[..]))
    ensures Distinct(sets.train) && Distinct(sets.test)
    ensures forall p :: p in sets.train || p in sets.test ==> fresh(p)
  {
    ghost var all := Samples(points[..]);
    var train := CopyPoints(points, 0, noOfTrainPoints, all[..noOfTrainPoints]);
    var test := CopyPoints(points, noOfTrainPoints, points.Length, all[noOfTrainPoints..]);
    assert all[..noOfTrainPoints] + all[noOfTrainPoints..] == all;
    sets := Sets(train, test);
  }

  /**
   * The copy loops of read_data: a fresh point for each of the points at
   * lo..hi-1 with the same features, category and value.
   */
  method CopyPoints(points: array<Point>, lo: nat, hi: nat, ghost ps: seq<Sample>) returns (copy: seq<Point>)
    requires lo <= hi <= points.Length && Snapshot(points[lo..hi], ps)
    ensures Snapshot(copy, ps)
    ensures Distinct(copy) && forall p :: p in copy ==> fresh(p)
  {
    copy := [];
    for i := lo to hi
      invariant Snapshot(copy, ps[..i - lo])
      invariant Distinct(copy) && forall p :: p in copy ==> fresh(p)
    {
      var p := new Point(points[i].dimension, points[i].category);
      p.val := points[i].val;
      copy := copy + [p];
    }
  }
}
