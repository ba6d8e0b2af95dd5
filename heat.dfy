/** The heat simulation behind the fire animation (`fire` in state.cpp), one
    step at a time, on the sequence of cell temperatures. */
module Heat {
  import opened Types

  /** Cells whose spark may land in (`random8(7)`). */
  const SparkCells: nat := 7

  /** `qsub8`: subtraction that stops at 0. */
  function QSub8(a: uint8, b: uint8): (r: uint8)
    ensures r <= a
    ensures b <= a ==> r == a - b
    ensures b > a ==> r == 0
  {
    if b > a then 0 else a - b
  }

  /** `qadd8`: addition that stops at 255. */
  function QAdd8(a: uint8, b: uint8): (r: uint8)
    ensures a <= r && b <= r
    ensures a + b <= 255 ==> r == a + b
    ensures a + b > 255 ==> r == 255
  {
    if a + b > 255 then 255 else a + b
  }

  /** Step 1: every cell of the strip cools by its draw, not below 0. */
  function Cooled(h: seq<uint8>, n: nat, draws: seq<uint8>): (c: seq<uint8>)
    requires n <= |h| && n <= |draws|
    ensures |c| == |h|
    ensures forall i :: 0 <= i < n ==> c[i] <= h[i] && (draws[i] >= h[i] ==> c[i] == 0)
    ensures forall i :: n <= i < |h| ==> c[i] == h[i]
  {
    seq(|h|, i requires 0 <= i < |h| => if i < n then QSub8(h[i], draws[i]) else h[i])
  }

  function Min(a: int, b: int): int { if a <= b then a else b }
  function Max(a: int, b: int): int { if a <= b then b else a }

  /** The new heat of cell `k` in step 2. */
  function Drift(below: uint8, twoBelow: uint8): (r: uint8)
    ensures Min(below, twoBelow) <= r <= Max(below, twoBelow)
  {
    (below + twoBelow + twoBelow) / 3
  }

  /** Step 2: from the top of the strip down to cell 2, each cell takes a
      weighted average of the two cells below it. Cells 0 and 1 and those
      past the strip keep their heat. Because the loop runs downwards, each
      cell reads cells not yet rewritten. */
  function Diffused(h: seq<uint8>, n: nat): (d: seq<uint8>)
    requires n <= |h|
    ensures |d| == |h|
    ensures forall k :: 2 <= k < n ==> Min(h[k - 1], h[k - 2]) <= d[k] <= Max(h[k - 1], h[k - 2])
    ensures forall k :: 0 <= k < |h| && (k < 2 || n <= k) ==> d[k] == h[k]
  {
    seq(|h|, k requires 0 <= k < |h| => if 2 <= k < n then Drift(h[k - 1], h[k - 2]) else h[k])
  }

  /** Step 3: when the roll is under the sparking rate, one cell near the
      bottom heats up, saturating at 255. */
  function Sparked(h: seq<uint8>, roll: uint8, sparking: uint8, cell: nat, amount: uint8): (s: seq<uint8>)
    requires cell < |h|
    ensures |s| == |h|
    ensures forall i :: 0 <= i < |h| && i != cell ==> s[i] == h[i]
    ensures roll >= sparking ==> s == h
    ensures roll < sparking ==> s[cell] == QAdd8(h[cell], amount) && s[cell] >= h[cell]
  {
    if roll < sparking then h[cell := QAdd8(h[cell], amount)] else h
  }

  /** One simulation step on `n` cells. */
  function FireStep(h: seq<uint8>, n: nat, draws: seq<uint8>, roll: uint8, sparking: uint8, cell: nat, amount: uint8): seq<uint8>
    requires n <= |h| && n <= |draws| && cell < |h|
  {
    Sparked(Diffused(Cooled(h, n, draws), n), roll, sparking, cell, amount)
  }

  /** Cells past both the strip and the spark cells never change. */
  lemma FireStepKeepsTail(h: seq<uint8>, n: nat, draws: seq<uint8>, roll: uint8, sparking: uint8, cell: nat, amount: uint8)
    requires n <= |h| && n <= |draws| && cell < SparkCells <= |h|
    ensures |FireStep(h, n, draws, roll, sparking, cell, amount)| == |h|
    ensures forall i :: n <= i < |h| && SparkCells <= i ==> FireStep(h, n, draws, roll, sparking, cell, amount)[i] == h[i]
  {
  }

  /** Without a spark no cell ends hotter than the hottest cell was. */
  lemma FireStepNoSparkBounded(h: seq<uint8>, n: nat, draws: seq<uint8>, roll: uint8, sparking: uint8, cell: nat, amount: uint8, m: uint8)
    requires n <= |h| && n <= |draws| && cell < |h|
    requires roll >= sparking
    requires forall i :: 0 <= i < |h| ==> h[i] <= m
    ensures forall i :: 0 <= i < |h| ==> FireStep(h, n, draws, roll, sparking, cell, amount)[i] <= m
  {
    var c := Cooled(h, n, draws);
    var d := Diffused(c, n);
    assert forall i :: 0 <= i < |c| ==> c[i] <= m;
    forall k | 0 <= k < |d|
      ensures d[k] <= m
    {
      if 2 <= k < n {
        assert d[k] <= Max(c[k - 1], c[k - 2]);
      }
    }
  }

  /** A cold strip with no spark stays cold. */
  lemma FireStepColdStaysCold(h: seq<uint8>, n: nat, draws: seq<uint8>, roll: uint8, sparking: uint8, cell: nat, amount: uint8)
    requires n <= |h| && n <= |draws| && cell < |h|
    requires roll >= sparking
    requires forall i :: 0 <= i < |h| ==> h[i] == 0
    ensures FireStep(h, n, draws, roll, sparking, cell, amount) == h
  {
    FireStepNoSparkBounded(h, n, draws, roll, sparking, cell, amount, 0);
  }
}
