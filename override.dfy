/** The override generator (`createOverrideFile` in
    internal/pkg/proxy/terraform.go): for every configured target, the blocks
    that match it get a blank line and an `https_proxy` attribute holding the
    target's proxy, and are appended to the body of the override file. The
    matched blocks are the parsed blocks themselves, so a block matched by
    several targets, or several times by one, is edited each time and
    appended each time. */
module Override {
  import opened Wrappers
  import opened Strings
  import opened Hcl
  import opened ProxyConfig
  import opened Discovery
  import opened Matching

  /** The attribute every appended block carries. */
  const ProxyAttribute: string := "https_proxy"

  /** The ways `createOverrideFile` fails: a discovery error, passed on
      unchanged, no Terraform files at all, or a malformed target. */
  datatype OverrideError =
    | DiscoveryFailed(cause: Error)
    | NoTerraformFiles
    | InvalidTarget(target: string)
  {
    /** The text this error is reported with. */
    function Message(): string
    {
      match this
      case DiscoveryFailed(cause) => cause.Message()
      case NoTerraformFiles => "could not find any terraform files matchin '*.tf' pattern"
      case InvalidTarget(target) => "invalid target format: " + target
    }
  }

  /** A target string splits into a kind and a name. */
  predicate WellFormed(target: string)
  {
    |Split(target, TargetSeparator)| == 2
  }

  /** The kind and the name of a target: its first two parts. The generator
      stops at a malformed target, so only those of well-formed ones matter. */
  function Kind(target: string): string
  {
    Split(target, TargetSeparator)[0]
  }

  function Name(target: string): string
  {
    var parts := Split(target, TargetSeparator);
    if |parts| >= 2 then parts[1] else ""
  }

  /** The proxy address a target's blocks receive. */
  function ProxyOf(c: Config, target: string): string
  {
    GetProxyForProvider(c, Name(target))
  }

  /** The position of the first malformed target, or the number of targets
      when all are well formed. */
  function FirstMalformed(targets: seq<string>): (n: nat)
    ensures n <= |targets|
    ensures forall i :: 0 <= i < n ==> WellFormed(targets[i])
    ensures n < |targets| ==> !WellFormed(targets[n])
  {
    if targets == [] || !WellFormed(targets[0]) then 0
    else
      var n := FirstMalformed(targets[1..]);
      assert forall i :: 1 <= i < 1 + n ==> targets[i] == targets[1..][i - 1];
      1 + n
  }

  /** The target strings of the entries named by `order`, as `GetProviders`
      renders them. */
  function Rendered(c: Config, order: seq<string>): (targets: seq<string>)
    requires forall i :: 0 <= i < |order| ==> order[i] in c.providers
    ensures |targets| == |order|
    ensures forall i :: 0 <= i < |order| ==> targets[i] == RenderTarget(c.providers[order[i]].typ, order[i])
  {
    seq(|order|, i requires 0 <= i < |order| => RenderTarget(c.providers[order[i]].typ, order[i]))
  }

  /** `order` lists every configured name exactly once. */
  predicate Enumerates(c: Config, order: seq<string>)
  {
    && |order| == |c.providers|
    && (forall k :: k in c.providers ==> k in order)
    && (forall i :: 0 <= i < |order| ==> order[i] in c.providers)
    && (forall i, j :: 0 <= i < j < |order| ==> order[i] != order[j])
  }

  /** The loop body for one returned block: a blank line, then the proxy attribute. */
  function Stamped(items: seq<Item>, proxy: string): seq<Item>
  {
    SetAttribute(items + [Newline], ProxyAttribute, StringLit(proxy))
  }

  /** The bodies after the blocks at positions `ps` have been stamped in turn. */
  function StampAll(bodies: seq<seq<Item>>, ps: seq<nat>, proxy: string): (r: seq<seq<Item>>)
    requires forall i :: 0 <= i < |ps| ==> ps[i] < |bodies|
    ensures |r| == |bodies|
  {
    if ps == [] then bodies
    else
      var n := |ps| - 1;
      var prev := StampAll(bodies, ps[..n], proxy);
      prev[ps[n] := Stamped(prev[ps[n]], proxy)]
  }

  /** The positions of the blocks one target returns. */
  function TargetMatches(blocks: seq<Block>, shapes: seq<seq<NestedBlock>>, target: string): (m: seq<nat>)
    requires |shapes| == |blocks|
    ensures forall i :: 0 <= i < |m| ==> m[i] < |blocks|
  {
    Matches(blocks, shapes, Kind(target), Name(target))
  }

  /** What one target does to the bodies: the blank lines of the
      matching pass, then a blank line and the proxy attribute per returned block. */
  function Apply(blocks: seq<Block>, shapes: seq<seq<NestedBlock>>, bodies: seq<seq<Item>>, c: Config, target: string): (r: seq<seq<Item>>)
    requires |shapes| == |blocks| && |bodies| == |blocks|
    ensures |r| == |blocks|
  {
    var counted := WithNewlines(bodies, NewlineCounts(blocks, shapes, Kind(target), Name(target)));
    StampAll(counted, TargetMatches(blocks, shapes, target), ProxyOf(c, target))
  }

  /** The bodies after every target in `targets` has been processed. */
  function Overridden(blocks: seq<Block>, shapes: seq<seq<NestedBlock>>, bodies: seq<seq<Item>>, c: Config, targets: seq<string>): (r: seq<seq<Item>>)
    requires |shapes| == |blocks| && |bodies| == |blocks|
    ensures |r| == |blocks|
  {
    if targets == [] then bodies
    else
      var n := |targets| - 1;
      Apply(blocks, shapes, Overridden(blocks, shapes, bodies, c, targets[..n]), c, targets[n])
  }

  /** The blocks appended to the override body for `targets`, in order. */
  function OverrideBody(blocks: seq<Block>, shapes: seq<seq<NestedBlock>>, targets: seq<string>): seq<Block>
    requires |shapes| == |blocks|
  {
    if targets == [] then []
    else
      var n := |targets| - 1;
      OverrideBody(blocks, shapes, targets[..n]) + Pick(blocks, TargetMatches(blocks, shapes, targets[n]))
  }

  /** The top-level blocks of the discovered files, none when discovery fails. */
  ghost function Footprint(names: seq<string>, load: string -> Loaded): set<Block>
  {
    var d := Discover(names, load);
    if d.Ok? then set b | b in Flatten(d.value) else {}
  }

  /** `createOverrideFile`, up to the final write: the result is the list of
      blocks appended to the override body, or the error it returns. The file
      names and their contents are parameters, and `order` is the map order
      `GetProviders` happened to follow. */
  method CreateOverrideFile(c: Config, names: seq<string>, load: string -> Loaded)
    returns (r: Result<seq<Block>, OverrideError>, ghost order: seq<string>)
    requires Discover(names, load).Ok? ==> Distinct(Flatten(Discover(names, load).value))
    modifies Footprint(names, load)
    ensures Discover(names, load).Err? ==> r == Err(DiscoveryFailed(Discover(names, load).error))
    ensures Discover(names, load) == Ok([]) ==> r == Err(NoTerraformFiles)
    ensures Discover(names, load).Ok? && Discover(names, load).value != [] ==>
      && Enumerates(c, order)
      && Processed(c, Flatten(Discover(names, load).value), Rendered(c, order),
                   old(Bodies(Flatten(Discover(names, load).value))), Bodies(Flatten(Discover(names, load).value)), r)
  {
    order := [];
    var d := DetermineTerraformFiles(names, load);
    if d.Err? {
      return Err(DiscoveryFailed(d.error)), order;
    }
    var files := d.value;
    if |files| == 0 {
      return Err(NoTerraformFiles), order;
    }
    var blocks := Flatten(files);
    var targets;
    targets, order := GetProviders(c);
    assert targets == Rendered(c, order);
    // The parsed blocks existed on entry and nothing has edited them yet.
    ghost var before := Bodies(blocks);
    assert old(allocated(load));
    assert old(allocated(Discover(names, load)));
    assert before == old(Bodies(blocks));
    r := ProcessTargets(c, blocks, targets);
    assert Processed(c, blocks, targets, before, Bodies(blocks), r);
  }

  /** What processing `targets` in turn promises, from the bodies `before` of
      `blocks` to the bodies `after` and the result `r`: the first malformed
      target stops it with its error, the bodies having been edited by the
      targets before it; otherwise the result is the whole override body. */
  ghost predicate Processed(c: Config, blocks: seq<Block>, targets: seq<string>,
                            before: seq<seq<Item>>, after: seq<seq<Item>>, r: Result<seq<Block>, OverrideError>)
    requires |before| == |blocks|
  {
    var shapes := NestedOf(before);
    var n := FirstMalformed(targets);
    && (r.Ok? <==> n == |targets|)
    && (r.Err? ==> r.error == InvalidTarget(targets[n]))
    && (r.Ok? ==> r.value == OverrideBody(blocks, shapes, targets))
    && after == Overridden(blocks, shapes, before, c, targets[..n])
  }

  /** The loop of `createOverrideFile` over the target strings. */
  method ProcessTargets(c: Config, blocks: seq<Block>, targets: seq<string>) returns (r: Result<seq<Block>, OverrideError>)
    requires Distinct(blocks)
    modifies set b | b in blocks
    ensures Processed(c, blocks, targets, old(Bodies(blocks)), Bodies(blocks), r)
  {
    ghost var start := Bodies(blocks);
    ghost var shapes := NestedOf(start);
    var body: seq<Block> := [];
    for ti := 0 to |targets|
      invariant ti <= FirstMalformed(targets)
      invariant body == OverrideBody(blocks, shapes, targets[..ti])
      invariant Bodies(blocks) == Overridden(blocks, shapes, start, c, targets[..ti])
    {
      var target := targets[ti];
      var parts := Split(target, TargetSeparator);
      if |parts| != 2 {
        return Err(InvalidTarget(target));
      }
      OverriddenKeepsShapes(blocks, shapes, start, c, targets[..ti]);
      body := ProcessTarget(c, blocks, parts, body, target, shapes);
      TargetStep(blocks, shapes, start, c, targets, ti);
    }
    assert targets[..|targets|] == targets;
    r := Ok(body);
  }

  /** The loop body of `createOverrideFile` for one well-formed target, from
      its parts on: the target's proxy, its returned blocks, and for each of
      them a blank line, the proxy attribute and an append to the body. */
  method ProcessTarget(c: Config, blocks: seq<Block>, parts: seq<string>, body: seq<Block>,
                       ghost target: string, ghost shapes: seq<seq<NestedBlock>>)
    returns (newBody: seq<Block>)
    requires Distinct(blocks) && |shapes| == |blocks|
    requires parts == Split(target, TargetSeparator) && |parts| == 2
    requires NestedOf(Bodies(blocks)) == shapes
    modifies set b | b in blocks
    ensures newBody == body + Pick(blocks, TargetMatches(blocks, shapes, target))
    ensures Bodies(blocks) == Apply(blocks, shapes, old(Bodies(blocks)), c, target)
  {
    var providerType := parts[0];
    var providerName := parts[1];
    var proxyAddr := GetProxyForProvider(c, providerName);
    ghost var m := TargetMatches(blocks, shapes, target);
    var matched := GenerateProviderBlocks(blocks, providerType, providerName);
    newBody := AppendMatches(body, blocks, matched, proxyAddr, m);
  }

  /** Processing one more target applies it to the bodies and appends its
      blocks to the override body. */
  lemma TargetStep(blocks: seq<Block>, shapes: seq<seq<NestedBlock>>, bodies: seq<seq<Item>>, c: Config, targets: seq<string>, ti: nat)
    requires |shapes| == |blocks| && |bodies| == |blocks| && ti < |targets|
    ensures Overridden(blocks, shapes, bodies, c, targets[..ti + 1])
         == Apply(blocks, shapes, Overridden(blocks, shapes, bodies, c, targets[..ti]), c, targets[ti])
    ensures OverrideBody(blocks, shapes, targets[..ti + 1])
         == OverrideBody(blocks, shapes, targets[..ti]) + Pick(blocks, TargetMatches(blocks, shapes, targets[ti]))
  {
    assert targets[..ti + 1][..ti] == targets[..ti];
  }

  /** The inner loop of `createOverrideFile` for one target: each returned
      block, at position `m[i]` of `blocks`, gets a blank line and the proxy
      attribute and is appended to the override body. */
  method AppendMatches(body: seq<Block>, blocks: seq<Block>, matched: seq<Block>, proxy: string, ghost m: seq<nat>)
    returns (newBody: seq<Block>)
    requires Distinct(blocks)
    requires forall i :: 0 <= i < |m| ==> m[i] < |blocks|
    requires matched == Pick(blocks, m)
    modifies set b | b in blocks
    ensures newBody == body + matched
    ensures Bodies(blocks) == StampAll(old(Bodies(blocks)), m, proxy)
  {
    ghost var start := Bodies(blocks);
    ghost var cur := start;
    newBody := body;
    for bi := 0 to |matched|
      invariant newBody == body + matched[..bi]
      invariant cur == StampAll(start, m[..bi], proxy)
      invariant forall j :: 0 <= j < |blocks| ==> blocks[j].items == cur[j]
    {
      var block := matched[bi];
      ghost var at := m[bi];
      StampBlock(block, proxy);
      assert block == blocks[at] && block.items == Stamped(cur[at], proxy);
      assert m[..bi + 1][..bi] == m[..bi];
      assert matched[..bi + 1] == matched[..bi] + [block];
      cur := cur[at := Stamped(cur[at], proxy)];
      newBody := newBody + [block];
    }
    assert m[..|matched|] == m && matched[..|matched|] == matched;
    assert Bodies(blocks) == cur;
  }

  /** The edit of one returned block: a blank line, then the proxy attribute. */
  method StampBlock(block: Block, proxy: string)
    modifies block
    ensures block.items == Stamped(old(block.items), proxy)
  {
    block.AppendNewline();
    block.SetAttributeValue(ProxyAttribute, proxy);
  }

  // Properties of the override generator.

  /** Stamping keeps the nested blocks and every attribute but the proxy, and
      leaves the proxy attribute holding the given address. */
  lemma StampedStructure(items: seq<Item>, proxy: string)
    ensures NestedBlocks(Stamped(items, proxy)) == NestedBlocks(items)
    ensures GetAttribute(Stamped(items, proxy), ProxyAttribute) == Some(StringLit(proxy))
    ensures forall name :: name != ProxyAttribute ==> GetAttribute(Stamped(items, proxy), name) == GetAttribute(items, name)
  {
    assert Newlines(1) == [Newline];
    NewlinesKeepStructure(items, 1);
    SetKeepsNested(items + [Newline], ProxyAttribute, StringLit(proxy));
    GetSetSame(items + [Newline], ProxyAttribute, StringLit(proxy));
    forall name | name != ProxyAttribute
      ensures GetAttribute(Stamped(items, proxy), name) == GetAttribute(items, name)
    {
      GetSetOther(items + [Newline], ProxyAttribute, StringLit(proxy), name);
    }
  }

  /** A stamped body holds the proxy attribute; an unstamped one is unchanged. */
  lemma {:induction false} StampAllAt(bodies: seq<seq<Item>>, ps: seq<nat>, proxy: string, j: nat)
    requires forall i :: 0 <= i < |ps| ==> ps[i] < |bodies|
    requires j < |bodies|
    ensures j !in ps ==> StampAll(bodies, ps, proxy)[j] == bodies[j]
    ensures j in ps ==> GetAttribute(StampAll(bodies, ps, proxy)[j], ProxyAttribute) == Some(StringLit(proxy))
  {
    if ps != [] {
      var n := |ps| - 1;
      StampAllAt(bodies, ps[..n], proxy, j);
      assert ps == ps[..n] + [ps[n]];
      if ps[n] == j {
        StampedStructure(StampAll(bodies, ps[..n], proxy)[j], proxy);
      }
    }
  }

  /** Stamping keeps the nested blocks of every body and every attribute
      other than the proxy. */
  lemma {:induction false} StampAllStructure(bodies: seq<seq<Item>>, ps: seq<nat>, proxy: string, j: nat)
    requires forall i :: 0 <= i < |ps| ==> ps[i] < |bodies|
    requires j < |bodies|
    ensures NestedBlocks(StampAll(bodies, ps, proxy)[j]) == NestedBlocks(bodies[j])
    ensures forall name :: name != ProxyAttribute ==>
      GetAttribute(StampAll(bodies, ps, proxy)[j], name) == GetAttribute(bodies[j], name)
  {
    if ps != [] {
      var n := |ps| - 1;
      StampAllStructure(bodies, ps[..n], proxy, j);
      if ps[n] == j {
        StampedStructure(StampAll(bodies, ps[..n], proxy)[j], proxy);
      }
    }
  }

  /** One target keeps the nested blocks of every body and all attributes
      but the proxy. */
  lemma ApplyKeeps(blocks: seq<Block>, shapes: seq<seq<NestedBlock>>, bodies: seq<seq<Item>>, c: Config, target: string, j: nat)
    requires |shapes| == |blocks| && |bodies| == |blocks| && j < |blocks|
    ensures NestedBlocks(Apply(blocks, shapes, bodies, c, target)[j]) == NestedBlocks(bodies[j])
    ensures forall name :: name != ProxyAttribute ==>
      GetAttribute(Apply(blocks, shapes, bodies, c, target)[j], name) == GetAttribute(bodies[j], name)
  {
    var counts := NewlineCounts(blocks, shapes, Kind(target), Name(target));
    var counted := WithNewlines(bodies, counts);
    WithNewlinesKeepsStructure(bodies, counts);
    assert NestedOf(counted)[j] == NestedOf(bodies)[j];
    StampAllStructure(counted, TargetMatches(blocks, shapes, target), ProxyOf(c, target), j);
  }

  /** A block one target does not match keeps its whole body. */
  lemma ApplyUnmatched(blocks: seq<Block>, shapes: seq<seq<NestedBlock>>, bodies: seq<seq<Item>>, c: Config, target: string, j: nat)
    requires |shapes| == |blocks| && |bodies| == |blocks| && j < |blocks|
    requires j !in TargetMatches(blocks, shapes, target)
    ensures Apply(blocks, shapes, bodies, c, target)[j] == bodies[j]
  {
    var counted := WithNewlines(bodies, NewlineCounts(blocks, shapes, Kind(target), Name(target)));
    StampAllAt(counted, TargetMatches(blocks, shapes, target), ProxyOf(c, target), j);
    MatchesCount(blocks, shapes, Kind(target), Name(target), j);
    assert counted[j] == bodies[j] + Newlines(0) == bodies[j];
  }

  /** A block one target matches ends up with the target's proxy. */
  lemma ApplyMatched(blocks: seq<Block>, shapes: seq<seq<NestedBlock>>, bodies: seq<seq<Item>>, c: Config, target: string, j: nat)
    requires |shapes| == |blocks| && |bodies| == |blocks| && j < |blocks|
    requires j in TargetMatches(blocks, shapes, target)
    ensures GetAttribute(Apply(blocks, shapes, bodies, c, target)[j], ProxyAttribute) == Some(StringLit(ProxyOf(c, target)))
  {
    var counted := WithNewlines(bodies, NewlineCounts(blocks, shapes, Kind(target), Name(target)));
    StampAllAt(counted, TargetMatches(blocks, shapes, target), ProxyOf(c, target), j);
  }

  /** Processing targets never changes the nested blocks, so every target is
      matched against the nested blocks the files were parsed with. */
  lemma {:induction false} OverriddenKeepsShapes(blocks: seq<Block>, shapes: seq<seq<NestedBlock>>, bodies: seq<seq<Item>>,
                                                  c: Config, targets: seq<string>)
    requires |shapes| == |blocks| && |bodies| == |blocks|
    ensures NestedOf(Overridden(blocks, shapes, bodies, c, targets)) == NestedOf(bodies)
  {
    if targets != [] {
      var n := |targets| - 1;
      OverriddenKeepsShapes(blocks, shapes, bodies, c, targets[..n]);
      var prev := Overridden(blocks, shapes, bodies, c, targets[..n]);
      forall j | 0 <= j < |blocks|
        ensures NestedBlocks(Apply(blocks, shapes, prev, c, targets[n])[j]) == NestedBlocks(bodies[j])
      {
        ApplyKeeps(blocks, shapes, prev, c, targets[n], j);
        assert NestedOf(prev)[j] == NestedOf(bodies)[j];
      }
    }
  }

  /** Every attribute of a block other than the proxy is never changed. */
  lemma {:induction false} OverriddenKeepsAttributes(blocks: seq<Block>, shapes: seq<seq<NestedBlock>>, bodies: seq<seq<Item>>,
                                                      c: Config, targets: seq<string>, j: nat, name: string)
    requires |shapes| == |blocks| && |bodies| == |blocks| && j < |blocks| && name != ProxyAttribute
    ensures GetAttribute(Overridden(blocks, shapes, bodies, c, targets)[j], name) == GetAttribute(bodies[j], name)
  {
    if targets != [] {
      var n := |targets| - 1;
      OverriddenKeepsAttributes(blocks, shapes, bodies, c, targets[..n], j, name);
      ApplyKeeps(blocks, shapes, Overridden(blocks, shapes, bodies, c, targets[..n]), c, targets[n], j);
    }
  }

  /** A block no target matches keeps its body exactly. */
  lemma {:induction false} OverriddenUntouched(blocks: seq<Block>, shapes: seq<seq<NestedBlock>>, bodies: seq<seq<Item>>,
                                                c: Config, targets: seq<string>, j: nat)
    requires |shapes| == |blocks| && |bodies| == |blocks| && j < |blocks|
    requires forall t :: 0 <= t < |targets| ==> j !in TargetMatches(blocks, shapes, targets[t])
    ensures Overridden(blocks, shapes, bodies, c, targets)[j] == bodies[j]
  {
    if targets != [] {
      var n := |targets| - 1;
      OverriddenUntouched(blocks, shapes, bodies, c, targets[..n], j);
      ApplyUnmatched(blocks, shapes, Overridden(blocks, shapes, bodies, c, targets[..n]), c, targets[n], j);
    }
  }

  /** A block some target matches ends up with the proxy of the last target
      that matches it: later targets overwrite the attribute earlier ones set. */
  lemma {:induction false} ProxyOfLastMatch(blocks: seq<Block>, shapes: seq<seq<NestedBlock>>, bodies: seq<seq<Item>>,
                                             c: Config, targets: seq<string>, j: nat, t: nat)
    requires |shapes| == |blocks| && |bodies| == |blocks| && j < |blocks|
    requires t < |targets| && j in TargetMatches(blocks, shapes, targets[t])
    requires forall u :: t < u < |targets| ==> j !in TargetMatches(blocks, shapes, targets[u])
    ensures GetAttribute(Overridden(blocks, shapes, bodies, c, targets)[j], ProxyAttribute)
         == Some(StringLit(ProxyOf(c, targets[t])))
  {
    var n := |targets| - 1;
    var prev := Overridden(blocks, shapes, bodies, c, targets[..n]);
    assert Overridden(blocks, shapes, bodies, c, targets) == Apply(blocks, shapes, prev, c, targets[n]);
    if t == n {
      ApplyMatched(blocks, shapes, prev, c, targets[n], j);
    } else {
      ApplyUnmatched(blocks, shapes, prev, c, targets[n], j);
      ProxyOfLastMatch(blocks, shapes, bodies, c, targets[..n], j, t);
    }
  }

  /** A block that some target matches is appended to the override body. */
  lemma {:induction false} OverrideBodyIncludes(blocks: seq<Block>, shapes: seq<seq<NestedBlock>>, targets: seq<string>, j: nat, t: nat)
    requires |shapes| == |blocks| && j < |blocks|
    requires t < |targets| && j in TargetMatches(blocks, shapes, targets[t])
    ensures blocks[j] in OverrideBody(blocks, shapes, targets)
  {
    var n := |targets| - 1;
    var m := TargetMatches(blocks, shapes, targets[n]);
    assert OverrideBody(blocks, shapes, targets) == OverrideBody(blocks, shapes, targets[..n]) + Pick(blocks, m);
    if t < n {
      assert targets[..n][t] == targets[t];
      OverrideBodyIncludes(blocks, shapes, targets[..n], j, t);
    } else {
      PickHas(blocks, m, j);
    }
  }

  /** With the blocks distinct, a block in the override body was appended for
      a target that matches it. */
  lemma {:induction false} OverrideBodyOrigin(blocks: seq<Block>, shapes: seq<seq<NestedBlock>>, targets: seq<string>, j: nat)
    returns (t: nat)
    requires |shapes| == |blocks| && Distinct(blocks) && j < |blocks|
    requires blocks[j] in OverrideBody(blocks, shapes, targets)
    ensures t < |targets| && j in TargetMatches(blocks, shapes, targets[t])
  {
    var n := |targets| - 1;
    var m := TargetMatches(blocks, shapes, targets[n]);
    assert OverrideBody(blocks, shapes, targets) == OverrideBody(blocks, shapes, targets[..n]) + Pick(blocks, m);
    PickMember(blocks, m, j);
    if j in m {
      t := n;
    } else {
      t := OverrideBodyOrigin(blocks, shapes, targets[..n], j);
      assert targets[..n][t] == targets[t];
    }
  }

  /** The override body holds only blocks of the parsed files. */
  lemma {:induction false} OverrideBodyFromFiles(blocks: seq<Block>, shapes: seq<seq<NestedBlock>>, targets: seq<string>)
    requires |shapes| == |blocks|
    ensures forall b :: b in OverrideBody(blocks, shapes, targets) ==> b in blocks
  {
    if targets != [] {
      OverrideBodyFromFiles(blocks, shapes, targets[..|targets| - 1]);
    }
  }

  /** Targets that match nothing are not an error: they leave the body empty
      and the blocks unchanged. */
  lemma {:induction false} NoMatchesEmptyOverride(blocks: seq<Block>, shapes: seq<seq<NestedBlock>>, bodies: seq<seq<Item>>,
                                                   c: Config, targets: seq<string>)
    requires |shapes| == |blocks| && |bodies| == |blocks|
    requires forall t :: 0 <= t < |targets| ==> TargetMatches(blocks, shapes, targets[t]) == []
    ensures OverrideBody(blocks, shapes, targets) == []
    ensures Overridden(blocks, shapes, bodies, c, targets) == bodies
  {
    if targets != [] {
      var n := |targets| - 1;
      NoMatchesEmptyOverride(blocks, shapes, bodies, c, targets[..n]);
      assert TargetMatches(blocks, shapes, targets[n]) == [];
      NoMatchesNoChange(blocks, shapes, Kind(targets[n]), Name(targets[n]), bodies);
    }
  }

  /** The target string of an entry is well formed iff neither its kind nor
      its name holds a separator, and it then splits into that kind and name,
      whose proxy is the entry's. */
  lemma RenderedTargetParts(c: Config, name: string)
    requires name in c.providers
    ensures WellFormed(RenderTarget(c.providers[name].typ, name)) <==>
      TargetSeparator !in c.providers[name].typ && TargetSeparator !in name
    ensures WellFormed(RenderTarget(c.providers[name].typ, name)) ==>
      && Kind(RenderTarget(c.providers[name].typ, name)) == c.providers[name].typ
      && Name(RenderTarget(c.providers[name].typ, name)) == name
      && ProxyOf(c, RenderTarget(c.providers[name].typ, name)) == GetProxyForProvider(c, name)
  {
    SplitRenderedTarget(c.providers[name].typ, name);
  }

  /** For a loaded configuration, whose kinds are all valid, the generator
      fails on a target iff some configured name holds a separator. */
  lemma LoadedTargetsWellFormed(c: Config, order: seq<string>)
    requires AllTypesValid(c.providers) && Enumerates(c, order)
    ensures FirstMalformed(Rendered(c, order)) == |order| <==>
      forall k :: k in c.providers ==> TargetSeparator !in k
  {
    var targets := Rendered(c, order);
    forall i | 0 <= i < |order|
      ensures WellFormed(targets[i]) <==> TargetSeparator !in order[i]
    {
      ValidTypesHaveNoSeparator(c.providers, order[i]);
      RenderedTargetParts(c, order[i]);
    }
  }
}
