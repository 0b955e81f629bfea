/**
 * The build script that splits the opening catalogue into one file per ECO
 * volume: each opening goes to the bucket of its code's first letter (A to E,
 * in either case) or to "OTHER", and the size of every non-empty bucket is
 * recorded. Reading and writing the files is not modelled; the buckets and the
 * sizes map are the script's results.
 */
module SplitOpenings {
  import opened Lists
  import opened Openings

  /** A bucket: one per ECO volume, and one for everything else. */
  datatype Bucket = A | B | C | D | E | Other

  /** The buckets, in the order the script creates them. */
  const Buckets: seq<Bucket> := [A, B, C, D, E, Other]

  /** The key of a bucket in the sizes file and in its file name. */
  function Name(b: Bucket): string {
    match b
    case A => "A"
    case B => "B"
    case C => "C"
    case D => "D"
    case E => "E"
    case Other => "OTHER"
  }

  /** `/^[A-E]/i`: the code starts with one of the letters A to E, in either case. */
  predicate VolumeLetter(eco: string) {
    |eco| > 0 && ('A' <= eco[0] <= 'E' || 'a' <= eco[0] <= 'e')
  }

  /** `toUpperCase` on a volume letter. */
  function UpperLetter(c: char): char {
    if 'a' <= c <= 'e' then (c as int - 32) as char else c
  }

  /**
   * The bucket of an ECO code: the one named by its first letter upper-cased
   * when that is a volume letter, "OTHER" otherwise.
   */
  function BucketOf(eco: string): (b: Bucket)
    ensures b == Other <==> !VolumeLetter(eco)
    ensures VolumeLetter(eco) ==> Name(b) == [UpperLetter(eco[0])]
  {
    if !VolumeLetter(eco) then Other
    else
      var c := UpperLetter(eco[0]);
      if c == 'A' then A else if c == 'B' then B else if c == 'C' then C else if c == 'D' then D else E
  }

  /** The test selecting the openings of bucket `key`. */
  function InBucket(key: Bucket): Opening -> bool {
    (o: Opening) => BucketOf(o.eco) == key
  }

  /** The total number of openings over the buckets listed in `keys`. */
  function SizeOver(keys: seq<Bucket>, all: seq<Opening>): nat
    decreases |keys|
  {
    if keys == [] then 0 else |Filter(all, InBucket(keys[0]))| + SizeOver(keys[1..], all)
  }

  /** No bucket is listed twice. */
  predicate DistinctKeys(keys: seq<Bucket>) {
    forall i, j :: 0 <= i < j < |keys| ==> keys[i] != keys[j]
  }

  /** The list of buckets names each bucket once, so every opening's bucket is in it once. */
  lemma BucketsListed(eco: string)
    ensures DistinctKeys(Buckets) && BucketOf(eco) in Buckets
  {
  }

  /** One more opening in front adds one to exactly the bucket it belongs to. */
  lemma {:induction false} SizeOverCons(keys: seq<Bucket>, x: Opening, rest: seq<Opening>)
    requires DistinctKeys(keys)
    ensures SizeOver(keys, [x] + rest) == SizeOver(keys, rest) + if BucketOf(x.eco) in keys then 1 else 0
    decreases |keys|
  {
    if keys != [] {
      assert ([x] + rest)[1..] == rest;
      SizeOverCons(keys[1..], x, rest);
      if BucketOf(x.eco) == keys[0] {
        assert keys[0] !in keys[1..];
      }
    }
  }

  /** Every opening lands in exactly one bucket, so the bucket sizes add up to the catalogue's size. */
  lemma SizesAddUp(all: seq<Opening>)
    ensures SizeOver(Buckets, all) == |all|
  {
    forall o: Opening ensures BucketOf(o.eco) in Buckets {
      BucketsListed(o.eco);
    }
    BucketsListed("");
    SizesAddUpOver(Buckets, all);
  }

  /** The same over any list of distinct buckets that holds the bucket of every opening. */
  lemma {:induction false} SizesAddUpOver(keys: seq<Bucket>, all: seq<Opening>)
    requires DistinctKeys(keys)
    requires forall o: Opening :: BucketOf(o.eco) in keys
    ensures SizeOver(keys, all) == |all|
    decreases |all|
  {
    if all != [] {
      SizesAddUpOver(keys, all[1..]);
      calc {
        SizeOver(keys, all);
      == { HeadTail(all); }
        SizeOver(keys, [all[0]] + all[1..]);
      == { SizeOverCons(keys, all[0], all[1..]); }
        SizeOver(keys, all[1..]) + 1;
      }
    } else {
      NoOpeningsNoSize(keys);
    }
  }

  /** An empty catalogue fills no bucket. */
  lemma {:induction false} NoOpeningsNoSize(keys: seq<Bucket>)
    ensures SizeOver(keys, []) == 0
    decreases |keys|
  {
    if keys != [] {
      NoOpeningsNoSize(keys[1..]);
    }
  }

  /** An opening is in its own bucket and in no other. */
  lemma ExactlyOneBucket(all: seq<Opening>, i: nat, key: Bucket)
    requires i < |all| && key in Buckets
    ensures all[i] in Filter(all, InBucket(key)) <==> key == BucketOf(all[i].eco)
  {
    var b := Filter(all, InBucket(key));
    if all[i] in b {
      var j :| 0 <= j < |b| && b[j] == all[i];
      assert InBucket(key)(b[j]);
    }
  }

  /** Where a bucket stands in the list of buckets. */
  function Position(b: Bucket): (i: nat)
    ensures i < |Buckets| && Buckets[i] == b
  {
    match b
    case A => 0
    case B => 1
    case C => 2
    case D => 3
    case E => 4
    case Other => 5
  }

  /** Each place in the list of buckets holds the bucket standing there. */
  lemma PositionAt(j: nat)
    requires j < |Buckets|
    ensures Position(Buckets[j]) == j
  {
  }

  /**
   * The script's two loops: every opening is pushed onto its bucket, in
   * catalogue order, then the size of every non-empty bucket is recorded.
   */
  method SplitByVolume(all: seq<Opening>) returns (buckets: map<Bucket, seq<Opening>>, sizes: map<Bucket, nat>)
    ensures IsSplit(buckets, all)
    ensures forall k: Bucket :: k in sizes <==> Filter(all, InBucket(k)) != []
    ensures forall k :: k in sizes ==> sizes[k] == |buckets[k]|
  {
    buckets := map[A := [], B := [], C := [], D := [], E := [], Other := []];
    NothingSplit();
    assert all[..0] == [];
    for i := 0 to |all|
      invariant IsSplit(buckets, all[..i])
    {
      var key := BucketOf(all[i].eco);
      PushStep(buckets, all[..i], all[i]);
      buckets := buckets[key := buckets[key] + [all[i]]];
      PrefixSnoc(all, i);
    }
    assert all[..|all|] == all;
    sizes := RecordSizes(buckets);
  }

  /**
   * The script's second loop: the size of every non-empty bucket, visiting
   * the buckets in order and skipping the empty ones.
   */
  method RecordSizes(buckets: map<Bucket, seq<Opening>>) returns (sizes: map<Bucket, nat>)
    requires forall k: Bucket :: k in buckets
    ensures forall k: Bucket :: k in sizes <==> buckets[k] != []
    ensures forall k :: k in sizes ==> sizes[k] == |buckets[k]|
  {
    sizes := map[];
    for j := 0 to |Buckets|
      invariant forall k: Bucket :: k in sizes <==> Position(k) < j && buckets[k] != []
      invariant forall k :: k in sizes ==> sizes[k] == |buckets[k]|
    {
      var key := Buckets[j];
      PositionAt(j);
      if |buckets[key]| == 0 {
        continue;
      }
      sizes := sizes[key := |buckets[key]|];
    }
  }

  /** Every bucket holds exactly the openings of `all` that belong to it, in catalogue order. */
  predicate IsSplit(buckets: map<Bucket, seq<Opening>>, all: seq<Opening>) {
    forall k: Bucket :: k in buckets && buckets[k] == Filter(all, InBucket(k))
  }

  /** Before any opening is read, every bucket is empty. */
  lemma NothingSplit()
    ensures IsSplit(map[A := [], B := [], C := [], D := [], E := [], Other := []], [])
  {
    var empty: map<Bucket, seq<Opening>> := map[A := [], B := [], C := [], D := [], E := [], Other := []];
    forall k: Bucket ensures k in empty && Filter([], InBucket(k)) == [] {
      match k
      case A =>
      case B =>
      case C =>
      case D =>
      case E =>
      case Other =>
    }
  }

  /** Pushing the next opening onto its bucket keeps the buckets a split of the longer catalogue. */
  lemma PushStep(buckets: map<Bucket, seq<Opening>>, before: seq<Opening>, x: Opening)
    requires IsSplit(buckets, before)
    ensures var key := BucketOf(x.eco);
      IsSplit(buckets[key := buckets[key] + [x]], before + [x])
  {
    var key := BucketOf(x.eco);
    var after := buckets[key := buckets[key] + [x]];
    forall k: Bucket
      ensures k in after && after[k] == Filter(before + [x], InBucket(k))
    {
      BucketStep(before, x, k);
    }
  }

  /** Pushing one opening changes only the bucket it belongs to. */
  lemma BucketStep(s: seq<Opening>, x: Opening, k: Bucket)
    ensures Filter(s + [x], InBucket(k)) == Filter(s, InBucket(k)) + if BucketOf(x.eco) == k then [x] else []
  {
    FilterAppend(s, [x], InBucket(k));
    assert [x][1..] == [];
  }
}
