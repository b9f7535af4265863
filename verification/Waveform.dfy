/** The bounded waveform scan of a finished recording, read in chunks of any size. */
module Waveform {
  import Common

  type Sample = real

  const MAX_PEAKS := 128

  function Abs(x: Sample): Sample { if x < 0.0 then -x else x }

  function Max(x: Sample, y: Sample): Sample { if x < y then y else x }

  /** The largest magnitude, 0 for no samples. */
  function Loudest(s: seq<Sample>): Sample
  {
    if s == [] then 0.0 else Max(Loudest(s[..|s| - 1]), Abs(s[|s| - 1]))
  }

  /** The magnitudes of consecutive buckets of b samples, the last one possibly shorter. */
  function Peaks(s: seq<Sample>, b: nat): seq<Sample>
    requires b > 0
  {
    if s == [] then [] else if |s| < b then [Loudest(s)] else [Loudest(s[..b])] + Peaks(s[b..], b)
  }

  function BucketFrames(frameCount: nat): (b: nat)
    ensures b > 0
  {
    if frameCount / 96 > 1 then frameCount / 96 else 1
  }

  /** What the reader delivers: chunks up to the first empty one. */
  function Delivered(chunks: seq<seq<Sample>>): seq<Sample>
  {
    if chunks == [] || chunks[0] == [] then [] else chunks[0] + Delivered(chunks[1..])
  }

  function Joined(chunks: seq<seq<Sample>>): seq<Sample>
  {
    if chunks == [] then [] else chunks[0] + Joined(chunks[1..])
  }

  /** An empty chunk is the end; everything before it is delivered, whatever the chunks. */
  lemma {:induction false} DeliversUpToTheEnd(chunks: seq<seq<Sample>>, later: seq<seq<Sample>>)
    requires forall i :: 0 <= i < |chunks| ==> chunks[i] != []
    requires later == [] || later[0] == []
    ensures Delivered(chunks + later) == Joined(chunks)
  {
    if chunks == [] {
      assert chunks + later == later;
    } else {
      assert (chunks + later)[1..] == chunks[1..] + later;
      DeliversUpToTheEnd(chunks[1..], later);
    }
  }

  /** s is a whole number of buckets. */
  predicate Whole(s: seq<Sample>, b: nat)
    requires b > 0
  {
    s == [] || (|s| >= b && Whole(s[b..], b))
  }

  /** The results so far are those of front, a whole number of buckets. */
  ghost predicate Scanned(front: seq<Sample>, peaks: seq<Sample>, peak: Sample, b: nat)
    requires b > 0
  {
    Whole(front, b) && peaks == Peaks(front, b) && peak == Loudest(front)
  }

  method Scan(frameCount: nat, chunks: seq<seq<Sample>>)
    returns (peaks: seq<Sample>, peak: Sample, waveform: seq<Sample>)
    ensures peaks == Peaks(Delivered(chunks), BucketFrames(frameCount))
    ensures peak == Loudest(Delivered(chunks))
    ensures waveform == if |peaks| <= MAX_PEAKS then peaks else peaks[..MAX_PEAKS]
  {
    peaks, peak := [], 0.0;
    var bucketFrames := BucketFrames(frameCount);
    var carry: seq<Sample> := [];
    ghost var front: seq<Sample> := [];
    var i := 0;
    while i < |chunks| && chunks[i] != []
      invariant i <= |chunks| && |carry| < bucketFrames
      invariant Delivered(chunks) == front + carry + Delivered(chunks[i..])
      invariant Scanned(front, peaks, peak, bucketFrames)
    {
      var mono := chunks[i];
      NextChunk(front, carry, chunks, i);
      if carry != [] {
        mono := carry + mono;
      }
      carry, peaks, peak, front := TakeBuckets(mono, bucketFrames, peaks, peak, front);
      i := i + 1;
    }
    NothingLeft(front + carry, chunks, i);
    LastBucket(front, carry, peaks, peak, bucketFrames);
    if carry != [] {
      var value := Loudest(carry);
      peaks := peaks + [value];
      peak := Max(peak, value);
    }
    waveform := if |peaks| <= MAX_PEAKS then peaks else peaks[..MAX_PEAKS];
  }

  /** The inner loop: whole buckets leave the front of mono, the rest is carried over. */
  method TakeBuckets(samples: seq<Sample>, bucketFrames: nat, peaks0: seq<Sample>, peak0: Sample,
                     ghost front0: seq<Sample>)
    returns (mono: seq<Sample>, peaks: seq<Sample>, peak: Sample, ghost front: seq<Sample>)
    requires bucketFrames > 0 && Scanned(front0, peaks0, peak0, bucketFrames)
    ensures |mono| < bucketFrames && front + mono == front0 + samples
    ensures Scanned(front, peaks, peak, bucketFrames)
  {
    mono, peaks, peak, front := samples, peaks0, peak0, front0;
    while |mono| >= bucketFrames
      invariant front + mono == front0 + samples
      invariant Scanned(front, peaks, peak, bucketFrames)
    {
      var bucket := mono[..bucketFrames];
      var value := Loudest(bucket);
      OneMoreBucket(front, bucket, bucketFrames);
      LoudestAppend(front, bucket);
      Common.Recombined(front, mono, bucketFrames);
      peaks := peaks + [value];
      peak := Max(peak, value);
      front := front + bucket;
      mono := mono[bucketFrames..];
    }
  }

  /** The next chunk with the carry in front of it, as the loop forms it. */
  lemma NextChunk(front: seq<Sample>, carry: seq<Sample>, chunks: seq<seq<Sample>>, i: nat)
    requires i < |chunks| && chunks[i] != []
    ensures var mono := if carry != [] then carry + chunks[i] else chunks[i];
      front + carry + Delivered(chunks[i..]) == front + mono + Delivered(chunks[i + 1..])
  {
    assert chunks[i..][1..] == chunks[i + 1..];
  }

  lemma NothingLeft(read: seq<Sample>, chunks: seq<seq<Sample>>, i: nat)
    requires i <= |chunks| && (i < |chunks| ==> chunks[i] == [])
    ensures read + Delivered(chunks[i..]) == read
  {
  }

  /** A carry left at the end is one more bucket. */
  lemma LastBucket(front: seq<Sample>, carry: seq<Sample>, peaks: seq<Sample>, peak: Sample, b: nat)
    requires b > 0 && Scanned(front, peaks, peak, b) && |carry| < b
    ensures Peaks(front + carry, b) == if carry == [] then peaks else peaks + [Loudest(carry)]
    ensures Loudest(front + carry) == if carry == [] then peak else Max(peak, Loudest(carry))
  {
    PeaksAppend(front, carry, b);
    LoudestAppend(front, carry);
    if carry == [] {
      assert front + carry == front;
    }
  }

  lemma {:induction false} LoudestAppend(a: seq<Sample>, b: seq<Sample>)
    ensures Loudest(a + b) == Max(Loudest(a), Loudest(b))
  {
    IsLoudest(a);
    if b == [] {
      assert a + b == a;
    } else {
      assert (a + b)[..|a + b| - 1] == a + b[..|b| - 1];
      LoudestAppend(a, b[..|b| - 1]);
    }
  }

  lemma {:induction false} PeaksAppend(a: seq<Sample>, s: seq<Sample>, b: nat)
    requires b > 0 && Whole(a, b)
    ensures Peaks(a + s, b) == Peaks(a, b) + Peaks(s, b)
    decreases |a|
  {
    if a == [] {
      assert a + s == s;
    } else {
      assert (a + s)[..b] == a[..b] && (a + s)[b..] == a[b..] + s;
      PeaksAppend(a[b..], s, b);
    }
  }

  lemma {:induction false} OneMoreBucket(a: seq<Sample>, bucket: seq<Sample>, b: nat)
    requires b > 0 && Whole(a, b) && |bucket| == b
    ensures Whole(a + bucket, b) && Peaks(a + bucket, b) == Peaks(a, b) + [Loudest(bucket)]
    decreases |a|
  {
    if a == [] {
      assert a + bucket == bucket && bucket[..b] == bucket && bucket[b..] == [];
    } else {
      assert (a + bucket)[..b] == a[..b] && (a + bucket)[b..] == a[b..] + bucket;
      OneMoreBucket(a[b..], bucket, b);
    }
  }

  // ---- what the waveform says of the samples ---------------------------------------------------------

  /** m is the maximum of the magnitudes in s. */
  predicate Maximum(s: seq<Sample>, m: Sample)
  {
    && (forall i :: 0 <= i < |s| ==> Abs(s[i]) <= m)
    && (if s == [] then m == 0.0 else exists i :: 0 <= i < |s| && Abs(s[i]) == m)
  }

  lemma {:induction false} IsLoudest(s: seq<Sample>)
    ensures Maximum(s, Loudest(s)) && Loudest(s) >= 0.0
  {
    if s != [] {
      var n := |s| - 1;
      var init, m := s[..n], Loudest(s);
      IsLoudest(init);
      assert m == Loudest(init) || m == Abs(s[n]);
      if m == Abs(s[n]) {
        assert exists i :: 0 <= i < |s| && Abs(s[i]) == m;
      } else {
        assert init != [];
        var i :| 0 <= i < |init| && Abs(init[i]) == m;
        assert Abs(s[i]) == m;
      }
      forall i | 0 <= i < |s| ensures Abs(s[i]) <= m {
        assert i < n ==> s[i] == init[i];
      }
    }
  }

  lemma SplitProduct(k: nat, b: nat)
    requires k > 0
    ensures k * b == b + (k - 1) * b
  {
  }

  /** The samples of the k-th bucket. */
  function Bucket(s: seq<Sample>, b: nat, k: nat): seq<Sample>
    requires k * b <= |s|
  {
    s[k * b..if (k + 1) * b < |s| then (k + 1) * b else |s|]
  }

  lemma LaterBucket(s: seq<Sample>, b: nat, k: nat)
    requires 0 < b <= |s| && k > 0 && (k - 1) * b < |s[b..]|
    ensures k * b < |s| && Bucket(s, b, k) == Bucket(s[b..], b, k - 1)
  {
    SplitProduct(k, b);
    SplitProduct(k + 1, b);
  }

  /** The k-th peak is the maximum of the k-th bucket, which is not empty. */
  lemma {:induction false} PeakOfBucket(s: seq<Sample>, b: nat, k: nat)
    requires b > 0 && k < |Peaks(s, b)|
    ensures k * b < |s| && Maximum(Bucket(s, b, k), Peaks(s, b)[k])
    decreases |s|
  {
    if k == 0 {
      assert Bucket(s, b, 0) == if |s| < b then s else s[..b];
      IsLoudest(Bucket(s, b, 0));
    } else if |s| >= b {
      PeakOfBucket(s[b..], b, k - 1);
      LaterBucket(s, b, k);
    }
  }

  /** m buckets suffice exactly when the samples fit into them. */
  lemma {:induction false} CountFits(s: seq<Sample>, b: nat, m: nat)
    requires b > 0
    ensures |Peaks(s, b)| <= m <==> |s| <= m * b
    decreases |s|
  {
    if s != [] && |s| >= b && m > 0 {
      CountFits(s[b..], b, m - 1);
      SplitProduct(m, b);
    } else if s != [] && m > 0 {
      SplitProduct(m, b);
    }
  }

  /** A recording of at least 9120 frames has at most 97 buckets. */
  lemma LongEnough(s: seq<Sample>)
    requires |s| >= 9120
    ensures |Peaks(s, BucketFrames(|s|))| <= 97
  {
    CountFits(s, BucketFrames(|s|), 97);
  }

  /** Exactly the very short recordings of 129 to 191 and 257 to 287 frames lose peaks to the cut at 128. */
  lemma CutDropsNothingIff(s: seq<Sample>)
    ensures |Peaks(s, BucketFrames(|s|))| <= MAX_PEAKS <==> !(129 <= |s| <= 191 || 257 <= |s| <= 287)
  {
    CountFits(s, BucketFrames(|s|), MAX_PEAKS);
  }
}
