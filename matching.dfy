/** Block matching of the override generator (`generateProviderBlocks` in
    internal/pkg/proxy/terraform.go): the top-level blocks of the parsed files
    that belong to one target, each returned once per match, with a blank line
    appended to a settings block for each of its matching nested blocks. */
module Matching {
  import opened Hcl

  /** The root settings block, whose nested blocks are searched too. */
  const SettingsBlockType: string := "terraform"

  /** The match test: the block kind is the target kind and the first label
      is the target name. */
  predicate LabelsMatch(typ: string, labels: seq<string>, providerType: string, providerName: string)
  {
    typ == providerType && |labels| > 0 && labels[0] == providerName
  }

  /** How many nested blocks pass the match test. */
  function NestedMatchCount(nested: seq<NestedBlock>, providerType: string, providerName: string): nat
  {
    if nested == [] then 0
    else
      var last := nested[|nested| - 1];
      NestedMatchCount(nested[..|nested| - 1], providerType, providerName)
      + if LabelsMatch(last.typ, last.labels, providerType, providerName) then 1 else 0
  }

  /** `n` copies of the same value. */
  function Repeat<T>(x: T, n: nat): (r: seq<T>)
    ensures |r| == n && forall i :: 0 <= i < n ==> r[i] == x
  {
    if n == 0 then [] else Repeat(x, n - 1) + [x]
  }

  /** How many times a top-level block whose nested blocks are `nested` is
      returned for them; each of these matches also appends a blank line. */
  function NestedHits(b: Block, nested: seq<NestedBlock>, providerType: string, providerName: string): nat
  {
    if b.typ == SettingsBlockType then NestedMatchCount(nested, providerType, providerName) else 0
  }

  /** How many times a top-level block is returned: once for a direct match,
      plus once per matching nested block. */
  function Hits(b: Block, nested: seq<NestedBlock>, providerType: string, providerName: string): nat
  {
    (if LabelsMatch(b.typ, b.labels, providerType, providerName) then 1 else 0)
    + NestedHits(b, nested, providerType, providerName)
  }

  /** The bodies of a list of blocks, in order. */
  ghost function Bodies(blocks: seq<Block>): (r: seq<seq<Item>>)
    reads blocks
    ensures |r| == |blocks| && forall i :: 0 <= i < |blocks| ==> r[i] == blocks[i].items
  {
    if blocks == [] then [] else Bodies(blocks[..|blocks| - 1]) + [blocks[|blocks| - 1].items]
  }

  /** The nested blocks of each body. Kinds and labels never change, so these
      are all that matching reads from the bodies. */
  function NestedOf(bodies: seq<seq<Item>>): (r: seq<seq<NestedBlock>>)
    ensures |r| == |bodies| && forall i :: 0 <= i < |bodies| ==> r[i] == NestedBlocks(bodies[i])
  {
    seq(|bodies|, i requires 0 <= i < |bodies| => NestedBlocks(bodies[i]))
  }

  /** How many times each top-level block is returned. */
  function HitCounts(blocks: seq<Block>, shapes: seq<seq<NestedBlock>>, providerType: string, providerName: string): (r: seq<nat>)
    requires |shapes| == |blocks|
    ensures |r| == |blocks|
    ensures forall j :: 0 <= j < |blocks| ==> r[j] == Hits(blocks[j], shapes[j], providerType, providerName)
  {
    seq(|blocks|, j requires 0 <= j < |blocks| => Hits(blocks[j], shapes[j], providerType, providerName))
  }

  /** Each position `j` repeated `counts[j]` times, in increasing order. */
  function Positions(counts: seq<nat>): (m: seq<nat>)
    ensures forall i :: 0 <= i < |m| ==> m[i] < |counts|
  {
    if counts == [] then []
    else
      var k := |counts| - 1;
      Positions(counts[..k]) + Repeat(k, counts[k])
  }

  /** The positions, in the list `blocks` of all top-level blocks, of the
      blocks `generateProviderBlocks` returns, in the order it returns them;
      `shapes` holds the nested blocks of each. */
  function Matches(blocks: seq<Block>, shapes: seq<seq<NestedBlock>>, providerType: string, providerName: string): (m: seq<nat>)
    requires |shapes| == |blocks|
    ensures forall i :: 0 <= i < |m| ==> m[i] < |blocks|
  {
    Positions(HitCounts(blocks, shapes, providerType, providerName))
  }

  /** The elements of `xs` at the positions `ps`. */
  function Pick<T>(xs: seq<T>, ps: seq<nat>): (r: seq<T>)
    requires forall i :: 0 <= i < |ps| ==> ps[i] < |xs|
    ensures |r| == |ps| && forall i :: 0 <= i < |ps| ==> r[i] == xs[ps[i]]
  {
    seq(|ps|, i requires 0 <= i < |ps| => xs[ps[i]])
  }

  /** The number of blank lines `generateProviderBlocks` appends to each block. */
  function NewlineCounts(blocks: seq<Block>, shapes: seq<seq<NestedBlock>>, providerType: string, providerName: string): (r: seq<nat>)
    requires |shapes| == |blocks|
    ensures |r| == |blocks|
    ensures forall j :: 0 <= j < |blocks| ==> r[j] == NestedHits(blocks[j], shapes[j], providerType, providerName)
  {
    seq(|blocks|, j requires 0 <= j < |blocks| => NestedHits(blocks[j], shapes[j], providerType, providerName))
  }

  /** Each body followed by its number of blank lines. */
  function WithNewlines(bodies: seq<seq<Item>>, counts: seq<nat>): (r: seq<seq<Item>>)
    requires |counts| == |bodies|
    ensures |r| == |bodies| && forall i :: 0 <= i < |bodies| ==> r[i] == bodies[i] + Newlines(counts[i])
  {
    seq(|bodies|, i requires 0 <= i < |bodies| => bodies[i] + Newlines(counts[i]))
  }

  /** The top-level blocks of a list of files, in file order and then block
      order: the order in which the two outer loops visit them. */
  function Flatten(files: seq<File>): seq<Block>
  {
    if files == [] then [] else Flatten(files[..|files| - 1]) + files[|files| - 1].blocks
  }

  /** Parsing yields fresh objects, so no top-level block occurs twice. */
  predicate Distinct<T(==)>(s: seq<T>)
  {
    forall i, j :: 0 <= i < j < |s| ==> s[i] != s[j]
  }

  /** `generateProviderBlocks` over the top-level blocks of all files, in the
      order the loops over files and their blocks visit them. */
  method GenerateProviderBlocks(blocks: seq<Block>, providerType: string, providerName: string)
    returns (res: seq<Block>)
    requires Distinct(blocks)
    modifies set b | b in blocks
    ensures res == Pick(blocks, Matches(blocks, NestedOf(old(Bodies(blocks))), providerType, providerName))
    ensures Bodies(blocks) ==
      WithNewlines(old(Bodies(blocks)), NewlineCounts(blocks, NestedOf(old(Bodies(blocks))), providerType, providerName))
  {
    ghost var start := Bodies(blocks);
    ghost var shapes := NestedOf(start);
    ghost var counts := HitCounts(blocks, shapes, providerType, providerName);
    ghost var final := WithNewlines(start, NewlineCounts(blocks, shapes, providerType, providerName));
    res := [];
    for k := 0 to |blocks|
      invariant res == Pick(blocks, Positions(counts[..k]))
      invariant forall j :: 0 <= j < k ==> blocks[j].items == final[j]
      invariant forall j :: k <= j < |blocks| ==> blocks[j].items == start[j]
    {
      var block := blocks[k];
      assert NestedBlocks(block.items) == shapes[k];
      var hits := MatchBlock(block, providerType, providerName);
      assert block.items == final[k];
      PickStep(blocks, counts, k);
      res := res + hits;
    }
    assert counts[..|blocks|] == counts;
    assert Bodies(blocks) == final by {
      assert forall j :: 0 <= j < |blocks| ==> Bodies(blocks)[j] == final[j];
    }
  }

  /** The body of the loop over the top-level blocks, for one block: the
      block itself for a direct match, and for a settings block the block
      again, after a blank line is appended, per matching nested block. */
  method MatchBlock(block: Block, providerType: string, providerName: string) returns (hits: seq<Block>)
    modifies block
    ensures hits == Repeat(block, Hits(block, old(NestedBlocks(block.items)), providerType, providerName))
    ensures block.items ==
      old(block.items) + Newlines(NestedHits(block, old(NestedBlocks(block.items)), providerType, providerName))
  {
    hits := [];
    if LabelsMatch(block.typ, block.labels, providerType, providerName) {
      hits := [block];
    }
    ghost var direct := |hits|;
    assert hits == Repeat(block, direct);
    if block.typ == SettingsBlockType {
      var nested := NestedBlocks(block.items);
      var more := NestedMatches(block, nested, providerType, providerName);
      RepeatAppend(block, direct, NestedMatchCount(nested, providerType, providerName));
      hits := hits + more;
    }
  }

  /** The loop over the nested blocks of a settings block: the block once
      per matching nested block, and a blank line appended for each. */
  method NestedMatches(block: Block, nested: seq<NestedBlock>, providerType: string, providerName: string)
    returns (more: seq<Block>)
    modifies block
    ensures more == Repeat(block, NestedMatchCount(nested, providerType, providerName))
    ensures block.items == old(block.items) + Newlines(NestedMatchCount(nested, providerType, providerName))
  {
    ghost var start := block.items;
    ghost var c := 0;
    more := [];
    for ni := 0 to |nested|
      invariant c == NestedMatchCount(nested[..ni], providerType, providerName)
      invariant more == Repeat(block, c)
      invariant block.items == start + Newlines(c)
    {
      NestedStep(nested, ni, providerType, providerName);
      var candidate := nested[ni];
      if LabelsMatch(candidate.typ, candidate.labels, providerType, providerName) {
        NewlinesSucc(start, c);
        block.AppendNewline();
        more := more + [block];
        c := c + 1;
      }
    }
    assert nested[..|nested|] == nested;
  }

  /** Copies of a value, then more copies of it. */
  lemma {:induction false} RepeatAppend<T>(x: T, m: nat, n: nat)
    ensures Repeat(x, m) + Repeat(x, n) == Repeat(x, m + n)
  {
    if n > 0 {
      RepeatAppend(x, m, n - 1);
    }
  }

  lemma NestedStep(nested: seq<NestedBlock>, ni: nat, providerType: string, providerName: string)
    requires ni < |nested|
    ensures NestedMatchCount(nested[..ni + 1], providerType, providerName)
         == NestedMatchCount(nested[..ni], providerType, providerName)
            + if LabelsMatch(nested[ni].typ, nested[ni].labels, providerType, providerName) then 1 else 0
  {
    assert nested[..ni + 1][..ni] == nested[..ni];
  }

  lemma NewlinesSucc(items: seq<Item>, n: nat)
    ensures items + Newlines(n) + [Newline] == items + Newlines(n + 1)
  {
  }

  /** One more position extends the picked elements by copies of its element. */
  lemma PickStep<T>(xs: seq<T>, counts: seq<nat>, k: nat)
    requires |counts| == |xs| && k < |xs|
    ensures Pick(xs, Positions(counts[..k + 1])) == Pick(xs, Positions(counts[..k])) + Repeat(xs[k], counts[k])
  {
    assert counts[..k + 1][..k] == counts[..k];
  }

  // Properties of the matching.

  lemma RepeatCount<T>(x: T, n: nat, y: T)
    ensures multiset(Repeat(x, n))[y] == if y == x then n else 0
  {
    if n > 0 {
      RepeatCount(x, n - 1, y);
    }
  }

  predicate Ordered(s: seq<nat>)
  {
    forall i, j :: 0 <= i <= j < |s| ==> s[i] <= s[j]
  }

  /** Positions never go back. */
  lemma {:induction false} PositionsOrdered(counts: seq<nat>)
    ensures Ordered(Positions(counts))
  {
    if counts != [] {
      var k := |counts| - 1;
      PositionsOrdered(counts[..k]);
      var front := Positions(counts[..k]);
      var back := Repeat(k, counts[k]);
      var m := front + back;
      assert m == Positions(counts);
      forall i, j | 0 <= i <= j < |m| ensures m[i] <= m[j] {
        if j >= |front| {
          assert m[j] == back[j - |front|] == k;
          if i < |front| {
            assert m[i] == front[i] < |counts[..k]|;
          } else {
            assert m[i] == back[i - |front|];
          }
        } else {
          assert m[i] == front[i] && m[j] == front[j];
        }
      }
    }
  }

  /** Position `j` occurs `counts[j]` times. */
  lemma {:induction false} PositionsCount(counts: seq<nat>, j: nat)
    ensures multiset(Positions(counts))[j] == if j < |counts| then counts[j] else 0
  {
    if counts != [] {
      var k := |counts| - 1;
      assert multiset(Positions(counts)) == multiset(Positions(counts[..k])) + multiset(Repeat(k, counts[k]));
      PositionsCount(counts[..k], j);
      RepeatCount(k, counts[k], j);
    }
  }

  /** The positions come in file order and then block order: they never go back. */
  lemma MatchesOrdered(blocks: seq<Block>, shapes: seq<seq<NestedBlock>>, providerType: string, providerName: string)
    requires |shapes| == |blocks|
    ensures Ordered(Matches(blocks, shapes, providerType, providerName))
  {
    PositionsOrdered(HitCounts(blocks, shapes, providerType, providerName));
  }

  /** Every top-level block occurs among the positions exactly as often as it
      matches: once if it matches directly, plus once per matching nested
      block of a settings block. */
  lemma MatchesCount(blocks: seq<Block>, shapes: seq<seq<NestedBlock>>, providerType: string, providerName: string, j: nat)
    requires |shapes| == |blocks|
    ensures multiset(Matches(blocks, shapes, providerType, providerName))[j] ==
      if j < |blocks| then Hits(blocks[j], shapes[j], providerType, providerName) else 0
  {
    PositionsCount(HitCounts(blocks, shapes, providerType, providerName), j);
  }

  /** A settings block has a matching nested block iff its nested match count is positive. */
  lemma {:induction false} NestedMatchCountPositive(nested: seq<NestedBlock>, providerType: string, providerName: string)
    ensures NestedMatchCount(nested, providerType, providerName) > 0 <==>
      exists i :: 0 <= i < |nested| && LabelsMatch(nested[i].typ, nested[i].labels, providerType, providerName)
  {
    if nested != [] {
      var n := |nested| - 1;
      NestedMatchCountPositive(nested[..n], providerType, providerName);
      if exists i :: 0 <= i < |nested| && LabelsMatch(nested[i].typ, nested[i].labels, providerType, providerName) {
        var i :| 0 <= i < |nested| && LabelsMatch(nested[i].typ, nested[i].labels, providerType, providerName);
        if i < n {
          assert nested[..n][i] == nested[i];
        }
      }
    }
  }

  /** A top-level block is among the matches iff it matches directly, or it is
      a settings block with a matching nested block. */
  lemma MatchesMember(blocks: seq<Block>, shapes: seq<seq<NestedBlock>>, providerType: string, providerName: string, j: nat)
    requires |shapes| == |blocks| && j < |blocks|
    ensures j in Matches(blocks, shapes, providerType, providerName) <==>
      || LabelsMatch(blocks[j].typ, blocks[j].labels, providerType, providerName)
      || (&& blocks[j].typ == SettingsBlockType
          && exists i :: 0 <= i < |shapes[j]| && LabelsMatch(shapes[j][i].typ, shapes[j][i].labels, providerType, providerName))
  {
    MatchesCount(blocks, shapes, providerType, providerName, j);
    NestedMatchCountPositive(shapes[j], providerType, providerName);
  }

  /** With the blocks distinct, each block object occurs in the result as often
      as its position occurs among the matches. */
  lemma {:induction false} PickCount<T>(xs: seq<T>, ps: seq<nat>, j: nat)
    requires Distinct(xs) && j < |xs|
    requires forall i :: 0 <= i < |ps| ==> ps[i] < |xs|
    ensures multiset(Pick(xs, ps))[xs[j]] == multiset(ps)[j]
  {
    if ps != [] {
      var n := |ps| - 1;
      PickCount(xs, ps[..n], j);
      assert Pick(xs, ps) == Pick(xs, ps[..n]) + [xs[ps[n]]];
      assert ps == ps[..n] + [ps[n]];
    }
  }

  /** The element at a listed position is picked. */
  lemma PickHas<T>(xs: seq<T>, ps: seq<nat>, j: nat)
    requires forall i :: 0 <= i < |ps| ==> ps[i] < |xs|
    requires j in ps
    ensures xs[j] in Pick(xs, ps)
  {
    var i :| 0 <= i < |ps| && ps[i] == j;
    assert Pick(xs, ps)[i] == xs[j];
  }

  /** With the blocks distinct, a block is picked iff its position is among the positions. */
  lemma PickMember<T>(xs: seq<T>, ps: seq<nat>, j: nat)
    requires Distinct(xs) && j < |xs|
    requires forall i :: 0 <= i < |ps| ==> ps[i] < |xs|
    ensures xs[j] in Pick(xs, ps) <==> j in ps
  {
    PickCount(xs, ps, j);
  }

  /** Nothing matches iff no top-level block matches directly and no
      settings block holds a matching nested block. */
  lemma MatchesEmpty(blocks: seq<Block>, shapes: seq<seq<NestedBlock>>, providerType: string, providerName: string)
    requires |shapes| == |blocks|
    ensures Matches(blocks, shapes, providerType, providerName) == [] <==>
      forall j :: 0 <= j < |blocks| ==> Hits(blocks[j], shapes[j], providerType, providerName) == 0
  {
    var m := Matches(blocks, shapes, providerType, providerName);
    if m != [] {
      MatchesCount(blocks, shapes, providerType, providerName, m[0]);
    } else {
      forall j | 0 <= j < |blocks| ensures Hits(blocks[j], shapes[j], providerType, providerName) == 0 {
        MatchesCount(blocks, shapes, providerType, providerName, j);
      }
    }
  }

  /** When nothing matches, no blank line is appended anywhere. */
  lemma NoMatchesNoChange(blocks: seq<Block>, shapes: seq<seq<NestedBlock>>, providerType: string, providerName: string,
                          bodies: seq<seq<Item>>)
    requires |shapes| == |blocks| && |bodies| == |blocks|
    requires Matches(blocks, shapes, providerType, providerName) == []
    ensures WithNewlines(bodies, NewlineCounts(blocks, shapes, providerType, providerName)) == bodies
  {
    MatchesEmpty(blocks, shapes, providerType, providerName);
    var w := WithNewlines(bodies, NewlineCounts(blocks, shapes, providerType, providerName));
    forall j | 0 <= j < |blocks| ensures w[j] == bodies[j] {
      assert bodies[j] + Newlines(0) == bodies[j];
    }
  }

  /** Appending blank lines changes neither the nested blocks nor the
      attributes of any body, so matching again sees the same blocks. */
  lemma WithNewlinesKeepsStructure(bodies: seq<seq<Item>>, counts: seq<nat>)
    requires |counts| == |bodies|
    ensures NestedOf(WithNewlines(bodies, counts)) == NestedOf(bodies)
    ensures forall j, name :: 0 <= j < |bodies| ==>
      GetAttribute(WithNewlines(bodies, counts)[j], name) == GetAttribute(bodies[j], name)
  {
    forall j | 0 <= j < |bodies|
      ensures NestedBlocks(bodies[j] + Newlines(counts[j])) == NestedBlocks(bodies[j])
      ensures forall name :: GetAttribute(bodies[j] + Newlines(counts[j]), name) == GetAttribute(bodies[j], name)
    {
      NewlinesKeepStructure(bodies[j], counts[j]);
    }
  }

  /** The flattened list of a concatenation is the concatenation of the flattened lists. */
  lemma {:induction false} FlattenAppend(xs: seq<File>, ys: seq<File>)
    ensures Flatten(xs + ys) == Flatten(xs) + Flatten(ys)
    decreases |ys|
  {
    if ys != [] {
      var zs := xs + ys;
      assert zs[..|zs| - 1] == xs + ys[..|ys| - 1];
      FlattenAppend(xs, ys[..|ys| - 1]);
    } else {
      assert xs + ys == xs;
    }
  }

  /** The single loop over `Flatten(files)` visits the blocks in the order of
      the two nested loops over files and their blocks: block `j` of file `i`
      comes right after the blocks of the files before `i`. */
  lemma FlattenPosition(files: seq<File>, i: nat, j: nat)
    requires i < |files| && j < |files[i].blocks|
    ensures |Flatten(files[..i])| + j < |Flatten(files)|
    ensures Flatten(files)[|Flatten(files[..i])| + j] == files[i].blocks[j]
  {
    var front := files[..i + 1];
    assert files == front + files[i + 1..];
    FlattenAppend(front, files[i + 1..]);
    assert front[..|front| - 1] == files[..i];
    assert Flatten(front) == Flatten(files[..i]) + files[i].blocks;
  }
}
