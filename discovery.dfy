/** File discovery of the override generator (`determineTerraformFiles` in
    internal/pkg/proxy/terraform.go): the Terraform files of the working
    directory, override files excluded, each read and parsed, the first
    failure aborting the whole discovery. */
module Discovery {
  import opened Wrappers
  import opened Strings
  import opened Hcl

  /** Files with this suffix are override files and are never parsed. */
  const OverrideSuffix: string := "_override.tf"

  /** The two ways `determineTerraformFiles` fails. */
  datatype Error =
    | ReadError(msg: string)
    | ParseError
  {
    /** The text this error is reported with. */
    function Message(): string
    {
      match this
      case ReadError(msg) => msg
      case ParseError => "could not parse hcl file"
    }
  }

  /** What reading and parsing one file produced (the read and the HCL parser
      are outside the model). */
  datatype Loaded = Unreadable(msg: string) | Unparsable | Parsed(file: File)

  predicate IsOverrideFile(name: string)
  {
    HasSuffix(name, OverrideSuffix)
  }

  /** The result of `determineTerraformFiles` for the file names the glob
      returned: override files are skipped, every other file is loaded in
      order, and the first failure aborts with no partial list. */
  function Discover(names: seq<string>, load: string -> Loaded): Result<seq<File>, Error>
  {
    if names == [] then Ok([])
    else if IsOverrideFile(names[0]) then Discover(names[1..], load)
    else match load(names[0])
      case Unreadable(msg) => Err(ReadError(msg))
      case Unparsable => Err(ParseError)
      case Parsed(f) => Prepend([f], Discover(names[1..], load))
  }

  function Prepend(fs: seq<File>, r: Result<seq<File>, Error>): Result<seq<File>, Error>
  {
    match r
    case Ok(rest) => Ok(fs + rest)
    case Err(e) => Err(e)
  }

  /** `determineTerraformFiles`, from the point where the glob has listed the
      candidate names. */
  method DetermineTerraformFiles(names: seq<string>, load: string -> Loaded)
    returns (r: Result<seq<File>, Error>)
    ensures r == Discover(names, load)
  {
    var res: seq<File> := [];
    var i := 0;
    assert names[i..] == names;
    assert Prepend(res, Discover(names, load)) == Discover(names, load) by {
      var d := Discover(names, load);
      if d.Ok? { assert [] + d.value == d.value; }
    }
    while i < |names|
      invariant 0 <= i <= |names|
      invariant Discover(names, load) == Prepend(res, Discover(names[i..], load))
    {
      var f := names[i];
      assert names[i..][1..] == names[i + 1..];
      if HasSuffix(f, OverrideSuffix) {
        i := i + 1;
        continue;
      }
      match load(f)
      case Unreadable(msg) =>
        return Err(ReadError(msg));
      case Unparsable =>
        return Err(ParseError);
      case Parsed(file) =>
        PrependTwice(res, [file], Discover(names[i + 1..], load));
        res := res + [file];
      i := i + 1;
    }
    assert names[i..] == [];
    assert res + [] == res;
    r := Ok(res);
  }

  lemma PrependTwice(a: seq<File>, b: seq<File>, r: Result<seq<File>, Error>)
    ensures Prepend(a, Prepend(b, r)) == Prepend(a + b, r)
  {
    if r.Ok? {
      assert a + (b + r.value) == (a + b) + r.value;
    }
  }

  /** The names that are loaded: all names that are not override files, in order. */
  function Kept(names: seq<string>): seq<string>
  {
    if names == [] then []
    else if IsOverrideFile(names[0]) then Kept(names[1..])
    else [names[0]] + Kept(names[1..])
  }

  /** Loading a list of names, stopping at the first failure. */
  function LoadAll(names: seq<string>, load: string -> Loaded): Result<seq<File>, Error>
  {
    if names == [] then Ok([])
    else match load(names[0])
      case Unreadable(msg) => Err(ReadError(msg))
      case Unparsable => Err(ParseError)
      case Parsed(f) => Prepend([f], LoadAll(names[1..], load))
  }

  /** The error a failed load reports. */
  function LoadError(l: Loaded): Error
    requires !l.Parsed?
  {
    if l.Unreadable? then ReadError(l.msg) else ParseError
  }

  /** Discovery is loading exactly the names that are not override files. */
  lemma {:induction false} DiscoverLoadsKept(names: seq<string>, load: string -> Loaded)
    ensures Discover(names, load) == LoadAll(Kept(names), load)
  {
    if names != [] {
      DiscoverLoadsKept(names[1..], load);
      if !IsOverrideFile(names[0]) {
        assert Kept(names) == [names[0]] + Kept(names[1..]);
        assert Kept(names)[1..] == Kept(names[1..]);
      }
    }
  }

  /** `Kept` drops every override file and keeps every other name. */
  lemma {:induction false} KeptIsFilter(names: seq<string>)
    ensures forall n :: n in Kept(names) <==> n in names && !IsOverrideFile(n)
  {
    if names != [] {
      KeptIsFilter(names[1..]);
      assert names == [names[0]] + names[1..];
    }
  }

  /** A successful load has one parsed file per name, in the same order. */
  lemma {:induction false} LoadAllOk(names: seq<string>, load: string -> Loaded)
    requires LoadAll(names, load).Ok?
    ensures |LoadAll(names, load).value| == |names|
    ensures forall i :: 0 <= i < |names| ==> load(names[i]) == Parsed(LoadAll(names, load).value[i])
  {
    if names != [] {
      LoadAllOk(names[1..], load);
      var fs := LoadAll(names, load).value;
      assert fs == [load(names[0]).file] + LoadAll(names[1..], load).value;
      forall i | 1 <= i < |names| ensures load(names[i]) == Parsed(fs[i]) {
        assert names[i] == names[1..][i - 1];
      }
    }
  }

  /** Loading fails iff some name fails to load, and then with the error of
      the first such name. */
  lemma {:induction false} LoadAllErr(names: seq<string>, load: string -> Loaded)
    ensures LoadAll(names, load).Err? <==> exists i :: 0 <= i < |names| && !load(names[i]).Parsed?
    ensures LoadAll(names, load).Err? ==>
      exists i :: FirstFailure(names, load, i) && LoadAll(names, load).error == LoadError(load(names[i]))
  {
    if names != [] {
      LoadAllErr(names[1..], load);
      if load(names[0]).Parsed? {
        if LoadAll(names, load).Err? {
          var i :| FirstFailure(names[1..], load, i) &&
            LoadAll(names[1..], load).error == LoadError(load(names[1..][i]));
          assert FirstFailure(names, load, i + 1);
        } else {
          forall i | 0 <= i < |names| ensures load(names[i]).Parsed? {
            if i > 0 { assert names[i] == names[1..][i - 1]; }
          }
        }
      } else {
        assert FirstFailure(names, load, 0);
      }
    }
  }

  predicate FirstFailure(names: seq<string>, load: string -> Loaded, i: int)
  {
    0 <= i < |names| && !load(names[i]).Parsed? &&
    forall j :: 0 <= j < i ==> load(names[j]).Parsed?
  }

  /** What an override file would contain never matters: discovery does not
      read it. */
  lemma {:induction false} DiscoverIgnoresOverrides(names: seq<string>, load1: string -> Loaded, load2: string -> Loaded)
    requires forall n :: !IsOverrideFile(n) ==> load1(n) == load2(n)
    ensures Discover(names, load1) == Discover(names, load2)
  {
    if names != [] {
      DiscoverIgnoresOverrides(names[1..], load1, load2);
    }
  }
}
