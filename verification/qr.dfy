/** The label generator's placeholder codes (src/components/qr/QRBarcodeGenerator.tsx):
    the 21 x 21 grid drawn as a "QR code" and the caption under the barcode.

    The grid only borrows the module count of a version 1 symbol of
    ISO/IEC 18004; it encodes nothing and is not a conforming QR symbol. */
module QRBarcode {
  import opened JsValues
  import opened Inventory

  /** Modules per side of the grid. */
  const Size: nat := 21

  /** The three 7 x 7 corner blocks the grid draws finder patterns in, tested
      on absolute indices. */
  predicate InCorner(i: int, j: int) {
    (i < 7 && j < 7) || (i < 7 && j >= Size - 7) || (i >= Size - 7 && j < 7)
  }

  /** Whether the module at row `i`, column `j` is dark, for a text of
      length `len`. */
  predicate Dark(i: nat, j: nat, len: nat) {
    if InCorner(i, j) then
      (i == 0 || i == 6 || j == 0 || j == 6) || (2 <= i <= 4 && 2 <= j <= 4)
    else if i == 6 || j == 6 then
      (i + j) % 2 == 0
    else
      (i * Size + j + len) % 3 == 0
  }

  /** The whole grid. */
  function Grid(len: nat): (g: seq<seq<bool>>)
    ensures |g| == Size && forall i :: 0 <= i < Size ==> |g[i]| == Size
  {
    seq(Size, i requires 0 <= i < Size => seq(Size, j requires 0 <= j < Size => Dark(i, j, len)))
  }

  /** `createQRPattern` for the text `text`: 21 rows of 21 modules, each as
      `Dark` says. */
  method CreateQRPattern(text: string) returns (pattern: seq<seq<bool>>)
    ensures |pattern| == Size
    ensures forall i :: 0 <= i < Size ==> |pattern[i]| == Size
    ensures forall i, j :: 0 <= i < Size && 0 <= j < Size ==> pattern[i][j] == Dark(i, j, |text|)
  {
    pattern := [];
    var i := 0;
    while i < Size
      invariant 0 <= i <= Size
      invariant |pattern| == i
      invariant forall a :: 0 <= a < i ==> |pattern[a]| == Size
      invariant forall a, b :: 0 <= a < i && 0 <= b < Size ==> pattern[a][b] == Dark(a, b, |text|)
    {
      var row: seq<bool> := [];
      var j := 0;
      while j < Size
        invariant 0 <= j <= Size
        invariant |row| == j
        invariant forall b :: 0 <= b < j ==> row[b] == Dark(i, b, |text|)
      {
        if (i < 7 && j < 7) || (i < 7 && j >= Size - 7) || (i >= Size - 7 && j < 7) {
          if (i == 0 || i == 6 || j == 0 || j == 6) || (i >= 2 && i <= 4 && j >= 2 && j <= 4) {
            row := row + [true];
          } else {
            row := row + [false];
          }
        } else if i == 6 || j == 6 {
          row := row + [(i + j) % 2 == 0];
        } else {
          var hash := (i * Size + j + |text|) % 3;
          row := row + [hash == 0];
        }
        j := j + 1;
      }
      pattern := pattern + [row];
      i := i + 1;
    }
  }

  /** The grid the method builds is `Grid(|text|)`: texts of the same length
      get the same grid. */
  lemma PatternIsGrid(text: string, pattern: seq<seq<bool>>)
    requires |pattern| == Size && forall i :: 0 <= i < Size ==> |pattern[i]| == Size
    requires forall i, j :: 0 <= i < Size && 0 <= j < Size ==> pattern[i][j] == Dark(i, j, |text|)
    ensures pattern == Grid(|text|)
  {
    var g := Grid(|text|);
    forall i | 0 <= i < Size ensures pattern[i] == g[i] {
      assert forall j :: 0 <= j < Size ==> pattern[i][j] == g[i][j];
    }
  }

  /** The top-left block is a proper finder pattern: a dark 7 x 7 ring, a
      light ring inside it, and a dark 3 x 3 centre. */
  lemma TopLeftFinder(i: nat, j: nat, len: nat)
    requires i < 7 && j < 7
    ensures Dark(i, j, len) <==>
      i == 0 || i == 6 || j == 0 || j == 6 || (2 <= i <= 4 && 2 <= j <= 4)
  {
  }

  /** The other two corner blocks are tested on absolute indices: in the top
      right only rows 0 and 6 are dark, in the bottom left only columns 0
      and 6. */
  lemma OtherCornersAreStripes(i: nat, j: nat, len: nat)
    ensures i < 7 && Size - 7 <= j < Size ==> (Dark(i, j, len) <==> i == 0 || i == 6)
    ensures Size - 7 <= i < Size && j < 7 ==> (Dark(i, j, len) <==> j == 0 || j == 6)
  {
  }

  /** Outside the corners, row 6 and column 6 alternate, dark on even
      columns and rows respectively. */
  lemma TimingAlternates(k: nat, len: nat)
    requires 7 <= k < Size - 7
    ensures Dark(6, k, len) <==> k % 2 == 0
    ensures Dark(k, 6, len) <==> k % 2 == 0
  {
  }

  /** A data module depends only on its column and the text length, since a
      row contributes a multiple of 21; so, in particular, the bottom-right
      block has no finder pattern. */
  lemma DataModules(i: nat, j: nat, len: nat)
    requires !InCorner(i, j) && i != 6 && j != 6
    ensures Dark(i, j, len) <==> (j + len) % 3 == 0
  {
    assert i * Size + j + len == 3 * (7 * i) + (j + len);
  }

  /** Texts whose lengths differ by a multiple of three get the same grid. */
  lemma {:induction false} GridPeriodThree(len: nat)
    ensures Grid(len + 3) == Grid(len)
  {
    forall i, j | 0 <= i < Size && 0 <= j < Size ensures Dark(i, j, len + 3) == Dark(i, j, len) {
      if !InCorner(i, j) && i != 6 && j != 6 {
        DataModules(i, j, len);
        DataModules(i, j, len + 3);
      }
    }
    forall i | 0 <= i < Size ensures Grid(len + 3)[i] == Grid(len)[i] {
    }
  }

  // ---------------------------------------------------------------------------
  // The barcode caption

  /** `text.replace(/\s+/g, '')`: the characters that are not white space,
      in order. */
  function StripSpaces(s: string): (r: string)
    ensures |r| <= |s|
    ensures forall k :: 0 <= k < |r| ==> !IsSpace(r[k])
  {
    if s == [] then []
    else
      var rest := StripSpaces(s[1..]);
      if IsSpace(s[0]) then rest
      else
        assert forall k :: 1 <= k <= |rest| ==> ([s[0]] + rest)[k] == rest[k - 1];
        [s[0]] + rest
  }

  /** Stripping keeps exactly the characters that are not white space. */
  lemma {:induction false} StripSpacesMembers(s: string)
    ensures forall c :: c in StripSpaces(s) <==> c in s && !IsSpace(c)
  {
    if s != [] {
      StripSpacesMembers(s[1..]);
      assert s == [s[0]] + s[1..];
    }
  }

  /** `text.replace(/\s+/g, '').substring(0, 12)`: the first twelve
      characters that are not white space. */
  function CaptionSource(text: string): (r: string)
    ensures |r| <= 12
    ensures forall k :: 0 <= k < |r| ==> !IsSpace(r[k])
    ensures var rest := StripSpaces(text);
      |r| <= |rest| && r == rest[..|r|] && (|r| < 12 ==> r == rest)
  {
    var rest := StripSpaces(text);
    if |rest| <= 12 then rest else rest[..12]
  }

  /** The caption: the source uppercased. */
  function Caption(h: Host, text: string): string {
    h.toUpper(CaptionSource(text))
  }

  /** Stripping a text without white space changes nothing. */
  lemma {:induction false} StripSpacesWithoutSpaces(s: string)
    requires forall k :: 0 <= k < |s| ==> !IsSpace(s[k])
    ensures StripSpaces(s) == s
  {
    if s != [] {
      StripSpacesWithoutSpaces(s[1..]);
    }
  }

  /** Stripping twice is stripping once. */
  lemma StripSpacesIdempotent(s: string)
    ensures StripSpaces(StripSpaces(s)) == StripSpaces(s)
  {
    StripSpacesWithoutSpaces(StripSpaces(s));
  }

  /** Taking the caption source twice is taking it once. */
  lemma CaptionSourceIdempotent(text: string)
    ensures CaptionSource(CaptionSource(text)) == CaptionSource(text)
  {
    StripSpacesWithoutSpaces(CaptionSource(text));
  }

  /** Stripping distributes over concatenation. */
  lemma {:induction false} StripSpacesConcat(a: string, b: string)
    ensures StripSpaces(a + b) == StripSpaces(a) + StripSpaces(b)
  {
    if a == [] {
      assert a + b == b;
    } else {
      var x := if IsSpace(a[0]) then [] else [a[0]];
      assert (a + b)[0] == a[0] && (a + b)[1..] == a[1..] + b;
      StripSpacesConcat(a[1..], b);
      assert x + (StripSpaces(a[1..]) + StripSpaces(b)) == (x + StripSpaces(a[1..])) + StripSpaces(b);
    }
  }

  /** A text of white space only strips to nothing. */
  lemma {:induction false} StripOnlySpaces(s: string)
    requires forall k :: 0 <= k < |s| ==> IsSpace(s[k])
    ensures StripSpaces(s) == []
  {
    if s != [] {
      StripOnlySpaces(s[1..]);
    }
  }

  /** White space added before or after a text makes no difference to the
      caption. */
  lemma CaptionIgnoresSpaces(h: Host, a: string, b: string)
    requires forall k :: 0 <= k < |b| ==> IsSpace(b[k])
    ensures Caption(h, a + b) == Caption(h, a) && Caption(h, b + a) == Caption(h, a)
  {
    StripOnlySpaces(b);
    StripSpacesConcat(a, b);
    StripSpacesConcat(b, a);
    assert StripSpaces(a) + [] == StripSpaces(a);
    assert [] + StripSpaces(a) == StripSpaces(a);
  }

  /** The text both codes are generated for: `${name}-${id}`. */
  function LabelText(p: Product): string {
    p.name + "-" + p.id
  }

  /** A product's caption source is its name and id without white space,
      joined by the dash, cut to twelve characters. */
  lemma LabelCaptionSource(p: Product)
    ensures var t := StripSpaces(p.name) + "-" + StripSpaces(p.id);
      CaptionSource(LabelText(p)) == if |t| <= 12 then t else t[..12]
  {
    StripSpacesConcat(p.name + "-", p.id);
    StripSpacesConcat(p.name, "-");
    assert StripSpaces("-") == "-" by {
      assert "-"[1..] == [];
    }
  }
}
