/** Which bytes of a sector the lines of the product code run through, as Annex A of ECMA-130 draws them: a
    matrix of 26 rows of 43 words of two bytes, its columns with two rows of check symbols, and diagonals. */
module EccLines {
  import opened Gf256
  import opened Ecc

  const ROWS := 26
  const COLUMNS := 43

  /** Where in the sector symbol i of a line lies, the two check symbols being the last. A line of P goes down
      a column of bytes; one of Q goes down and right from word to word, and around. */
  function Place(line: Line, i: nat): nat {
    match line
    case P(r) => DATA_OFFSET + 2 * COLUMNS * i + r
    case Q(r) =>
      if i < COLUMNS then DATA_OFFSET + 2 * (COLUMNS * ((r / 2 + i) % ROWS) + i) + r % 2
      else DATA_OFFSET + 2 * COLUMNS * ROWS + Q_BYTES * (i - COLUMNS) + r
  }

  /** How many symbols a line has. */
  function Symbols(line: Line): nat {
    line.Comps() + 2
  }

  lemma DiagonalStep(n: nat, c: nat)
    requires n < ROWS && c < COLUMNS
    ensures (86 * n + 88 * c) % 2236 == 2 * (COLUMNS * ((n + c) % ROWS) + c)
  {
    var q := (n + c) / ROWS;
    assert n + c == ROWS * q + (n + c) % ROWS;
    assert 86 * n + 88 * c == 2236 * q + 2 * (COLUMNS * ((n + c) % ROWS) + c);
  }

  lemma AddSide(x: nat, z: nat, side: nat)
    requires x % 2236 == 2 * z && side < 2
    ensures (x + side) % 2236 == 2 * z + side
  {
  }

  /** The offsets of P are columns of the matrix, those of Q its diagonals. */
  lemma OffsetPlace(line: Line, c: nat)
    requires line.Valid() && c < line.Comps()
    ensures DATA_OFFSET + line.Offset(c) == Place(line, c)
  {
    if line.Q? {
      var n, side := line.r / 2, line.r % 2;
      DiagonalStep(n, c);
      AddSide(86 * n + 88 * c, COLUMNS * ((n + c) % ROWS) + c, side);
    }
  }

  /** The check symbols of P are the last two rows; those of Q follow the matrix. */
  lemma ChecksPlace(line: Line)
    requires line.Valid()
    ensures line.At() == Place(line, line.Comps()) && line.At2() == Place(line, line.Comps() + 1)
  {
  }

  lemma {:induction false} LineDataAt(s: seq<bv8>, line: Line, n: nat, i: nat)
    requires line.Valid() && i < n <= line.Comps() && line.Extent() <= |s|
    ensures DATA_OFFSET + line.Offset(i) < |s| && LineData(s, line, n)[i] == Data(s, line.Offset(i))
  {
    hide Data, Line.Offset;
    line.OffsetInExtent(i);
    if i < n - 1 { LineDataAt(s, line, n - 1, i); }
  }

  /** The header of a mode 2 sector, which the code takes as zero. */
  predicate FreeHeader(s: seq<bv8>, b: nat)
    requires |s| >= SECTOR
  {
    s[MODE_OFFSET] == 2 && 12 <= b < 16
  }

  /** The symbols of a line are the bytes at its places. */
  lemma WordAt(s: seq<bv8>, line: Line, i: nat)
    requires line.Valid() && i < Symbols(line) && |s| >= SECTOR
    ensures |Word(s, line)| == Symbols(line) && Place(line, i) < SECTOR
    ensures Word(s, line)[i] == if FreeHeader(s, Place(line, i)) then 0 else s[Place(line, i)]
  {
    hide LineData, Line.Offset;
    if i < line.Comps() {
      OffsetPlace(line, i);
      LineDataAt(s, line, line.Comps(), i);
    } else {
      ChecksPlace(line);
    }
  }

  /** The column of P that a byte lies on, and where. */
  function InP(b: nat): (Line, nat)
    requires DATA_OFFSET <= b
  {
    (P((b - DATA_OFFSET) % 86), (b - DATA_OFFSET) / 86)
  }

  /** The diagonal of Q that a byte lies on, and where. */
  function InQ(b: nat): (Line, nat)
    requires DATA_OFFSET <= b
  {
    if b < Q_OFFSET then
      var w := (b - DATA_OFFSET) / 2;
      (Q(2 * ((w / COLUMNS + 2 * ROWS - w % COLUMNS) % ROWS) + (b - DATA_OFFSET) % 2), w % COLUMNS)
    else (Q((b - Q_OFFSET) % Q_BYTES), COLUMNS + (b - Q_OFFSET) / Q_BYTES)
  }

  /** Every byte between the synchronisation pattern and the parity of Q lies on exactly one line of P. */
  lemma OnePerP(b: nat, r: nat, i: nat)
    requires DATA_OFFSET <= b < Q_OFFSET
    ensures InP(b).0.Valid() && InP(b).1 < ROWS
    ensures P(r).Valid() && i < ROWS ==> (Place(P(r), i) == b <==> InP(b) == (P(r), i))
  {
  }

  /** A diagonal meets a column in one row. */
  lemma Meets(n: nat, c: nat, row: nat)
    requires n < ROWS && c < COLUMNS && row < ROWS
    ensures (n + c) % ROWS == row <==> n == (row + 2 * ROWS - c) % ROWS
  {
  }

  lemma WordNumber(w: nat, row: nat, c: nat)
    requires c < COLUMNS
    ensures w == COLUMNS * row + c <==> row == w / COLUMNS && c == w % COLUMNS
  {
  }

  lemma SplitByte(o: nat, w: nat, side: nat)
    requires side < 2
    ensures 2 * w + side == o <==> w == o / 2 && side == o % 2
  {
  }

  lemma Diagonal(b: nat, r: nat, i: nat)
    requires DATA_OFFSET <= b < Q_OFFSET && r < Q_BYTES && i < COLUMNS
    ensures Place(Q(r), i) == b <==> InQ(b) == (Q(r), i)
  {
    var o, w, y := b - DATA_OFFSET, (b - DATA_OFFSET) / 2, (r / 2 + i) % ROWS;
    SplitByte(o, COLUMNS * y + i, r % 2);
    WordNumber(w, y, i);
    Meets(r / 2, i, w / COLUMNS);
    assert r == 2 * (r / 2) + r % 2;
  }

  /** Every byte behind the synchronisation pattern lies on exactly one line of Q. */
  lemma OnePerQ(b: nat, r: nat, i: nat)
    requires DATA_OFFSET <= b < SECTOR
    ensures InQ(b).0.Valid() && InQ(b).1 < COLUMNS + 2
    ensures Q(r).Valid() && i < COLUMNS + 2 ==> (Place(Q(r), i) == b <==> InQ(b) == (Q(r), i))
  {
    hide Place;
    if r < Q_BYTES && i < COLUMNS + 2 {
      if i >= COLUMNS {
        CheckPlace(b, r, i);
      } else if b < Q_OFFSET {
        Diagonal(b, r, i);
      } else {
        DiagonalInside(r, i);
      }
    }
  }

  lemma CheckPlace(b: nat, r: nat, i: nat)
    requires DATA_OFFSET <= b < SECTOR && r < Q_BYTES && COLUMNS <= i < COLUMNS + 2
    ensures Place(Q(r), i) == b <==> InQ(b) == (Q(r), i)
  {
  }

  lemma DiagonalInside(r: nat, i: nat)
    requires r < Q_BYTES && i < COLUMNS
    ensures Place(Q(r), i) < Q_OFFSET
  {
  }

  // ---- one changed byte

  /** Two sectors that differ in byte b alone, and not in their mode. */
  ghost predicate DifferAt(s: seq<bv8>, t: seq<bv8>, b: nat) {
    && |s| == |t| == SECTOR && b < SECTOR && s[b] != t[b]
    && (forall i :: 0 <= i < SECTOR && i != b ==> s[i] == t[i])
    && (s[MODE_OFFSET] == 2 <==> t[MODE_OFFSET] == 2)
  }

  /** The code does not see this byte. */
  predicate Unseen(s: seq<bv8>, b: nat)
    requires |s| == SECTOR
  {
    b < DATA_OFFSET || FreeHeader(s, b)
  }

  /** A word with one symbol changed has another sum. */
  lemma {:induction false} SumDiffers(v: seq<bv8>, w: seq<bv8>, k: nat)
    requires |v| == |w| && k < |v| && v[k] != w[k]
    requires forall i :: 0 <= i < |v| && i != k ==> v[i] == w[i]
    ensures Sum(v) != Sum(w)
  {
    var n := |v| - 1;
    if k < n {
      SumDiffers(v[..n], w[..n], k);
    } else {
      assert v[..n] == w[..n];
    }
    AddCancels(Sum(v[..n]), Sum(w[..n]), v[n], w[n]);
  }

  lemma AddCancels(a: bv8, b: bv8, c: bv8, d: bv8)
    ensures a == b && c != d ==> Add(a, c) != Add(b, d)
    ensures a != b && c == d ==> Add(a, c) != Add(b, d)
  {
  }

  lemma WordsSame(s: seq<bv8>, t: seq<bv8>, b: nat, line: Line)
    requires DifferAt(s, t, b) && line.Valid()
    requires Unseen(s, b) || forall i: nat :: i < Symbols(line) ==> Place(line, i) != b
    ensures Word(s, line) == Word(t, line)
  {
    hide Word, Place;
    WordAt(s, line, 0);
    WordAt(t, line, 0);
    forall i: nat | i < Symbols(line) ensures Word(s, line)[i] == Word(t, line)[i] {
      WordAt(s, line, i);
      WordAt(t, line, i);
      PlaceBehind(line, i);
    }
  }

  lemma PlaceBehind(line: Line, i: nat)
    requires line.Valid() && i < Symbols(line)
    ensures DATA_OFFSET <= Place(line, i)
  {
  }

  /** The diagonal through a changed byte has another sum. */
  lemma DiagonalBreaks(s: seq<bv8>, t: seq<bv8>, b: nat)
    requires DifferAt(s, t, b) && !Unseen(s, b)
    ensures InQ(b).0.Valid() && Sum(Word(s, InQ(b).0)) != Sum(Word(t, InQ(b).0))
  {
    hide Word, Place, InQ;
    var (line, k) := InQ(b);
    OnePerQ(b, line.r, k);
    InQIsQ(b);
    WordAt(s, line, k);
    WordAt(t, line, k);
    forall i: nat | i < Symbols(line)
      ensures |Word(s, line)| == |Word(t, line)| == Symbols(line)
      ensures Word(s, line)[i] == Word(t, line)[i] <==> i != k
    {
      OnePerQ(b, line.r, i);
      WordAt(s, line, i);
      WordAt(t, line, i);
    }
    SumDiffers(Word(s, line), Word(t, line), k);
  }

  lemma InQIsQ(b: nat)
    requires DATA_OFFSET <= b
    ensures InQ(b).0.Q?
  {
  }

  /** Changing one byte of a sector that verifies, but not its mode, leaves it verifying if and only if the
      byte is in the synchronisation pattern or in the header of a mode 2 sector. */
  lemma OneByteChanged(s: seq<bv8>, t: seq<bv8>, b: nat)
    requires DifferAt(s, t, b) && AllCodewords(s)
    ensures AllCodewords(t) <==> Unseen(s, b)
  {
    hide Word, InQ, Place;
    if Unseen(s, b) {
      forall line: Line | line.Valid() ensures Codeword(Word(t, line)) { WordsSame(s, t, b, line); }
    } else {
      DiagonalBreaks(s, t, b);
      assert Codeword(Word(s, InQ(b).0));
    }
  }
}
