/** Greedy merging of a 16 by 16 mask of materials into rectangles (examples/gpu_stress_3d/voxel_scene.rs). Zero is empty. */
module Rectangles {
  type Mask = m: seq<nat> | |m| == 256 witness seq(256, _ => 0)

  datatype Rect = Rect(i: nat, j: nat, w: nat, h: nat, material: nat)

  predicate Inside(r: Rect, i: nat, j: nat) {
    r.i <= i < r.i + r.w && r.j <= j < r.j + r.h
  }

  predicate Fits(r: Rect) {
    0 < r.w && 0 < r.h && r.i + r.w <= 16 && r.j + r.h <= 16 && r.material != 0
  }

  function Cell(i: nat, j: nat): nat { j * 16 + i }

  lemma CellPlace(i: nat, j: nat)
    requires i < 16 && j < 16
    ensures Cell(i, j) < 256 && Cell(i, j) % 16 == i && Cell(i, j) / 16 == j
  {
  }

  /** `n` cells from `start` on hold the material. */
  predicate Uniform(m: seq<nat>, start: nat, n: nat, material: nat)
    requires start + n <= |m|
  {
    forall c: nat :: start <= c < start + n ==> m[c] == material
  }

  /** `h` rows of `w` cells hold the material. */
  predicate Block(m: Mask, i: nat, j: nat, w: nat, h: nat, material: nat)
    requires i + w <= 16 && j + h <= 16
  {
    forall row: nat :: j <= row < j + h ==> Uniform(m, Cell(i, row), w, material)
  }

  // ---- Growing and clearing one rectangle ----

  /** How many cells from `start` on repeat the material, within the room. */
  function Run(m: Mask, start: nat, room: nat, material: nat): (r: nat)
    requires start + room <= 256
    ensures r <= room && Uniform(m, start, r, material)
    ensures r == room || m[start + r] != material
    decreases room
  {
    if room == 0 || m[start] != material then 0 else 1 + Run(m, start + 1, room - 1, material)
  }

  /** How many rows from `j` on repeat the material over the whole width. */
  function Rows(m: Mask, i: nat, j: nat, w: nat, room: nat, material: nat): (r: nat)
    requires i + w <= 16 && j + room <= 16
    ensures r <= room && Block(m, i, j, w, r, material)
    ensures r == room || !Uniform(m, Cell(i, j + r), w, material)
    decreases room
  {
    if room == 0 || !Uniform(m, Cell(i, j), w, material) then 0 else 1 + Rows(m, i, j + 1, w, room - 1, material)
  }

  function Width(m: Mask, i: nat, j: nat): (w: nat)
    requires i < 16 && j < 16
    ensures 0 < w <= 16 - i && Uniform(m, Cell(i, j), w, m[Cell(i, j)])
  {
    1 + Run(m, Cell(i, j) + 1, 15 - i, m[Cell(i, j)])
  }

  function Height(m: Mask, i: nat, j: nat): (h: nat)
    requires i < 16 && j < 16
    ensures 0 < h <= 16 - j && Block(m, i, j, Width(m, i, j), h, m[Cell(i, j)])
  {
    1 + Rows(m, i, j + 1, Width(m, i, j), 15 - j, m[Cell(i, j)])
  }

  /** The rectangle the scan takes from a cell: as wide as it goes, then as tall. */
  function RectAt(m: Mask, i: nat, j: nat): (r: Rect)
    requires i < 16 && j < 16 && m[Cell(i, j)] != 0
    ensures Fits(r) && Block(m, r.i, r.j, r.w, r.h, r.material)
  {
    Rect(i, j, Width(m, i, j), Height(m, i, j), m[Cell(i, j)])
  }

  function ClearRow(m: Mask, start: nat, w: nat): (r: Mask)
    requires start + w <= 256
    ensures forall c :: 0 <= c < 256 ==> r[c] == if start <= c < start + w then 0 else m[c]
  {
    if w == 0 then m else ClearRow(m, start, w - 1)[start + w - 1 := 0]
  }

  /** Clears `h` rows of `w` cells. */
  function Clear(m: Mask, i: nat, j: nat, w: nat, h: nat): Mask
    requires i + w <= 16 && j + h <= 16
  {
    if h == 0 then m else ClearRow(Clear(m, i, j, w, h - 1), Cell(i, j + h - 1), w)
  }

  function ClearRect(m: Mask, r: Rect): Mask
    requires Fits(r)
  {
    Clear(m, r.i, r.j, r.w, r.h)
  }

  lemma {:induction false} ClearAt(m: Mask, i: nat, j: nat, w: nat, h: nat, c: nat)
    requires i + w <= 16 && j + h <= 16 && c < 256
    ensures Clear(m, i, j, w, h)[c] == if i <= c % 16 < i + w && j <= c / 16 < j + h then 0 else m[c]
  {
    if h > 0 { ClearAt(m, i, j, w, h - 1, c); }
  }

  lemma ClearRectAt(m: Mask, r: Rect, i: nat, j: nat)
    requires Fits(r) && Block(m, r.i, r.j, r.w, r.h, r.material) && i < 16 && j < 16
    ensures Inside(r, i, j) ==> m[Cell(i, j)] == r.material
    ensures ClearRect(m, r)[Cell(i, j)] == if Inside(r, i, j) then 0 else m[Cell(i, j)]
  {
    CellPlace(i, j);
    ClearAt(m, r.i, r.j, r.w, r.h, Cell(i, j));
    if Inside(r, i, j) {
      assert Uniform(m, Cell(r.i, j), r.w, r.material);
    }
  }

  // ---- Counting ----

  function Filled(m: seq<nat>): nat {
    if m == [] then 0 else Filled(m[..|m| - 1]) + if m[|m| - 1] != 0 then 1 else 0
  }

  lemma {:induction false} FilledAfterZero(m: seq<nat>, p: nat)
    requires p < |m| && m[p] != 0
    ensures Filled(m[p := 0]) + 1 == Filled(m)
  {
    var last := |m| - 1;
    if p < last {
      FilledAfterZero(m[..last], p);
      assert m[p := 0][..last] == m[..last][p := 0];
    } else {
      assert m[p := 0][..last] == m[..last];
    }
  }

  lemma {:induction false} ClearRowCounts(m: Mask, start: nat, w: nat)
    requires start + w <= 256 && forall c: nat :: start <= c < start + w ==> m[c] != 0
    ensures Filled(ClearRow(m, start, w)) + w == Filled(m)
  {
    if w > 0 {
      ClearRowCounts(m, start, w - 1);
      FilledAfterZero(ClearRow(m, start, w - 1), start + w - 1);
    }
  }

  lemma RowUntouched(m: Mask, i: nat, j: nat, w: nat, h: nat, material: nat)
    requires i + w <= 16 && j + h < 16 && Uniform(m, Cell(i, j + h), w, material)
    ensures Uniform(Clear(m, i, j, w, h), Cell(i, j + h), w, material)
  {
    forall c: nat | Cell(i, j + h) <= c < Cell(i, j + h) + w ensures Clear(m, i, j, w, h)[c] == material {
      ClearAt(m, i, j, w, h, c);
    }
  }

  lemma {:induction false} ClearCounts(m: Mask, i: nat, j: nat, w: nat, h: nat, material: nat)
    requires i + w <= 16 && j + h <= 16 && material != 0 && Block(m, i, j, w, h, material)
    ensures Filled(Clear(m, i, j, w, h)) + w * h == Filled(m)
  {
    if h > 0 {
      ClearCounts(m, i, j, w, h - 1, material);
      RowUntouched(m, i, j, w, h - 1, material);
      ClearRowCounts(Clear(m, i, j, w, h - 1), Cell(i, j + h - 1), w);
      assert w * h == w * (h - 1) + w;
    }
  }

  lemma TakingCounts(m: Mask, r: Rect)
    requires Fits(r) && Block(m, r.i, r.j, r.w, r.h, r.material)
    ensures Filled(ClearRect(m, r)) + r.w * r.h == Filled(m) && r.w * r.h > 0
  {
    ClearCounts(m, r.i, r.j, r.w, r.h, r.material);
    Positive(r.w, r.h);
  }

  lemma Positive(a: nat, b: nat)
    requires a > 0 && b > 0
    ensures a * b > 0
  {
  }

  lemma {:induction false} FilledIsBounded(m: seq<nat>)
    ensures Filled(m) <= |m|
  {
    if m != [] { FilledIsBounded(m[..|m| - 1]); }
  }

  lemma {:induction false} NothingFilled(m: seq<nat>)
    ensures Filled(m) == 0 <==> forall c :: 0 <= c < |m| ==> m[c] == 0
  {
    if m != [] { NothingFilled(m[..|m| - 1]); }
  }

  // ---- All rectangles of a mask ----

  ghost predicate EmptyBelow(m: Mask, at: nat) {
    forall c :: 0 <= c < at && c < 256 ==> m[c] == 0
  }

  ghost predicate FirstFilled(m: Mask, i: nat, j: nat) {
    i < 16 && j < 16 && m[Cell(i, j)] != 0 && EmptyBelow(m, Cell(i, j))
  }

  /** The rectangles a scan takes: always from the first cell left. */
  ghost function Rects(m: Mask): seq<Rect>
    decreases Filled(m)
  {
    if i: nat, j: nat :| FirstFilled(m, i, j) then
      var r := RectAt(m, i, j);
      TakingCounts(m, r);
      [r] + Rects(ClearRect(m, r))
    else []
  }

  lemma FirstIsUnique(m: Mask, i: nat, j: nat, i': nat, j': nat)
    requires FirstFilled(m, i, j) && FirstFilled(m, i', j')
    ensures i == i' && j == j'
  {
    CellPlace(i, j);
    CellPlace(i', j');
  }

  lemma {:induction false} FirstExists(m: Mask, at: nat)
    requires at <= 256 && EmptyBelow(m, at) && !EmptyBelow(m, 256)
    ensures exists i: nat, j: nat :: FirstFilled(m, i, j)
    decreases 256 - at
  {
    if at < 256 && m[at] != 0 {
      assert Cell(at % 16, at / 16) == at;
      assert FirstFilled(m, at % 16, at / 16);
    } else if at < 256 {
      FirstExists(m, at + 1);
    }
  }

  lemma RectsOfFirst(m: Mask, i: nat, j: nat)
    requires FirstFilled(m, i, j)
    ensures Rects(m) == [RectAt(m, i, j)] + Rects(ClearRect(m, RectAt(m, i, j)))
  {
    forall i': nat, j': nat | FirstFilled(m, i', j') ensures i == i' && j == j' {
      FirstIsUnique(m, i, j, i', j');
    }
  }

  lemma RectsOfEmpty(m: Mask)
    requires EmptyBelow(m, 256)
    ensures Rects(m) == []
  {
    assert forall i: nat, j: nat :: !FirstFilled(m, i, j);
  }

  // ---- What they cover ----

  ghost function Covering(rs: seq<Rect>, i: nat, j: nat): nat {
    if rs == [] then 0 else (if Inside(rs[0], i, j) then 1 else 0) + Covering(rs[1..], i, j)
  }

  /** One cell as a list of rectangles sees it: covered once by its material, or not at all when empty. */
  ghost predicate CellCovered(rs: seq<Rect>, i: nat, j: nat, value: nat) {
    && Covering(rs, i, j) == (if value != 0 then 1 else 0)
    && forall k :: 0 <= k < |rs| && Inside(rs[k], i, j) ==> rs[k].material == value
  }

  lemma {:induction false} NotCovered(rs: seq<Rect>, i: nat, j: nat)
    ensures Covering(rs, i, j) == 0 <==> forall k :: 0 <= k < |rs| ==> !Inside(rs[k], i, j)
  {
    if rs != [] {
      NotCovered(rs[1..], i, j);
    }
  }

  lemma CoverStep(m: Mask, r: Rect, rest: seq<Rect>, i: nat, j: nat)
    requires Fits(r) && Block(m, r.i, r.j, r.w, r.h, r.material) && i < 16 && j < 16
    requires CellCovered(rest, i, j, ClearRect(m, r)[Cell(i, j)])
    ensures CellCovered([r] + rest, i, j, m[Cell(i, j)])
  {
    ClearRectAt(m, r, i, j);
    NotCovered(rest, i, j);
    assert ([r] + rest)[1..] == rest;
  }

  /** The rectangles are disjoint, uniform and cover exactly the cells that are not empty. */
  lemma {:induction false} RectsCoverExactly(m: Mask, i: nat, j: nat)
    requires i < 16 && j < 16
    ensures CellCovered(Rects(m), i, j, m[Cell(i, j)])
    decreases Filled(m)
  {
    if EmptyBelow(m, 256) {
      RectsOfEmpty(m);
      CellPlace(i, j);
    } else {
      FirstExists(m, 0);
      var a: nat, b: nat :| FirstFilled(m, a, b);
      var r := RectAt(m, a, b);
      TakingCounts(m, r);
      RectsCoverExactly(ClearRect(m, r), i, j);
      CoverStep(m, r, Rects(ClearRect(m, r)), i, j);
      RectsOfFirst(m, a, b);
    }
  }

  function Area(rs: seq<Rect>): nat {
    if rs == [] then 0 else rs[0].w * rs[0].h + Area(rs[1..])
  }

  ghost predicate AllFit(rs: seq<Rect>) {
    forall k :: 0 <= k < |rs| ==> Fits(rs[k])
  }

  /** No cell is lost or counted twice: the areas add up to the number of cells that are not empty. */
  lemma {:induction false} AreaIsFilled(m: Mask)
    ensures Area(Rects(m)) == Filled(m) && AllFit(Rects(m))
    decreases Filled(m)
  {
    if EmptyBelow(m, 256) {
      RectsOfEmpty(m);
      NothingFilled(m);
    } else {
      FirstExists(m, 0);
      var a: nat, b: nat :| FirstFilled(m, a, b);
      var r := RectAt(m, a, b);
      TakingCounts(m, r);
      AreaIsFilled(ClearRect(m, r));
      RectsOfFirst(m, a, b);
    }
  }

  // ---- The in-place algorithm ----

  method GrowWidth(mask: array<nat>, i: nat, j: nat) returns (w: nat)
    requires mask.Length == 256 && i < 16 && j < 16
    ensures w == Width(mask[..], i, j)
  {
    w := 1;
    while i + w < 16 && mask[Cell(i, j) + w] == mask[Cell(i, j)]
      invariant 0 < w && i + w <= 16
      invariant w + Run(mask[..], Cell(i, j) + w, 16 - i - w, mask[Cell(i, j)]) == Width(mask[..], i, j)
    {
      w := w + 1;
    }
  }

  method RowHolds(mask: array<nat>, start: nat, w: nat, material: nat) returns (all: bool)
    requires mask.Length == 256 && start + w <= 256
    ensures all <==> Uniform(mask[..], start, w, material)
  {
    for x := 0 to w
      invariant Uniform(mask[..], start, x, material)
    {
      if mask[start + x] != material {
        return false;
      }
    }
    return true;
  }

  method GrowHeight(mask: array<nat>, i: nat, j: nat, w: nat) returns (h: nat)
    requires mask.Length == 256 && i < 16 && j < 16 && w == Width(mask[..], i, j)
    ensures h == Height(mask[..], i, j)
  {
    h := 1;
    while j + h < 16
      invariant 0 < h && j + h <= 16
      invariant h + Rows(mask[..], i, j + h, w, 16 - j - h, mask[Cell(i, j)]) == Height(mask[..], i, j)
    {
      var more := RowHolds(mask, Cell(i, j + h), w, mask[Cell(i, j)]);
      if !more {
        return;
      }
      h := h + 1;
    }
  }

  method ClearCells(mask: array<nat>, i: nat, j: nat, w: nat, h: nat)
    requires mask.Length == 256 && i + w <= 16 && j + h <= 16
    modifies mask
    ensures mask[..] == Clear(old(mask[..]), i, j, w, h)
  {
    ghost var m: Mask := mask[..];
    for y := 0 to h
      invariant mask[..] == Clear(m, i, j, w, y)
    {
      ghost var row: Mask := mask[..];
      for x := 0 to w
        invariant mask[..] == ClearRow(row, Cell(i, j + y), x)
      {
        mask[Cell(i, j + y) + x] := 0;
      }
    }
  }

  /** How far the scan of `whole` has come: everything before `at` is taken. */
  ghost predicate Progress(whole: Mask, m: Mask, taken: seq<Rect>, at: nat) {
    at <= 256 && EmptyBelow(m, at) && taken + Rects(m) == Rects(whole)
  }

  lemma ProgressTakes(whole: Mask, m: Mask, taken: seq<Rect>, i: nat, j: nat)
    requires i < 16 && j < 16 && Progress(whole, m, taken, Cell(i, j)) && m[Cell(i, j)] != 0
    ensures Progress(whole, ClearRect(m, RectAt(m, i, j)), taken + [RectAt(m, i, j)], Cell(i, j) + 1)
  {
    var r := RectAt(m, i, j);
    RectsOfFirst(m, i, j);
    ClearedBelow(m, r, Cell(i, j));
    ClearRectAt(m, r, i, j);
    assert taken + ([r] + Rects(ClearRect(m, r))) == (taken + [r]) + Rects(ClearRect(m, r));
  }

  lemma ClearedBelow(m: Mask, r: Rect, at: nat)
    requires Fits(r) && EmptyBelow(m, at)
    ensures EmptyBelow(ClearRect(m, r), at)
  {
    forall c: nat | c < at && c < 256 ensures ClearRect(m, r)[c] == 0 {
      ClearAt(m, r.i, r.j, r.w, r.h, c);
    }
  }

  lemma ProgressEnds(whole: Mask, m: Mask, taken: seq<Rect>)
    requires Progress(whole, m, taken, 256)
    ensures taken == Rects(whole) && forall c :: 0 <= c < 256 ==> m[c] == 0
  {
    RectsOfEmpty(m);
  }

  /** Scans row by row, taking the largest rectangle at each cell left, and leaves the mask empty. */
  method TakeRectangles(mask: array<nat>) returns (result: seq<Rect>)
    requires mask.Length == 256
    modifies mask
    ensures result == Rects(old(mask[..]))
    ensures forall c :: 0 <= c < 256 ==> mask[c] == 0
  {
    ghost var whole: Mask := mask[..];
    result := [];
    assert [] + Rects(whole) == Rects(whole);
    for j: nat := 0 to 16
      invariant Progress(whole, mask[..], result, j * 16)
    {
      for i: nat := 0 to 16
        invariant Progress(whole, mask[..], result, j * 16 + i)
      {
        result := TakeOne(mask, i, j, result, whole);
      }
    }
    ProgressEnds(whole, mask[..], result);
    forall c | 0 <= c < 256 ensures mask[c] == 0 {
      assert mask[..][c] == 0;
    }
  }

  method TakeOne(mask: array<nat>, i: nat, j: nat, before: seq<Rect>, ghost whole: Mask) returns (result: seq<Rect>)
    requires mask.Length == 256 && i < 16 && j < 16 && Progress(whole, mask[..], before, j * 16 + i)
    modifies mask
    ensures Progress(whole, mask[..], result, j * 16 + i + 1)
  {
    var material := mask[Cell(i, j)];
    ghost var m: Mask := mask[..];
    if material == 0 {
      return before;
    }
    ProgressTakes(whole, m, before, i, j);
    var w, h := TakeAt(mask, i, j);
    result := before + [Rect(i, j, w, h, material)];
  }

  /** Grows the rectangle at one cell and clears it. */
  method TakeAt(mask: array<nat>, i: nat, j: nat) returns (w: nat, h: nat)
    requires mask.Length == 256 && i < 16 && j < 16 && mask[Cell(i, j)] != 0
    modifies mask
    ensures w == Width(old(mask[..]), i, j) && h == Height(old(mask[..]), i, j)
    ensures mask[..] == ClearRect(old(mask[..]), RectAt(old(mask[..]), i, j))
  {
    w := GrowWidth(mask, i, j);
    h := GrowHeight(mask, i, j, w);
    ClearCells(mask, i, j, w, h);
  }
}
