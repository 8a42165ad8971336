# tf-proxy override generation, modelled in Dafny

tf-proxy wraps the Terraform binary. Before it runs Terraform, it writes an override
file into the working directory. That file gives selected provider and backend
blocks an `https_proxy` attribute. This project models the part that decides
what goes into that file:

- **Configuration** (`config.dfy`, module `ProxyConfig`, from
  `internal/pkg/proxy/config.go`). Loading covers:
  - the built-in `{s3: backend, aws: provider}` set, used when the file is missing or declares no providers;
  - defaulting an empty kind to `provider`;
  - validating every kind, stopping at the first invalid entry, in map order.

  Resolution covers:
  - the proxy address of a provider: its own, or the default;
  - the list of `kind/name` target strings.
- **Go string helpers** (`strings.dfy`, module `Strings`): `strings.Split` with Go's
  semantics, its partner `Join`, and `strings.HasSuffix`.
- **An abstract HCL syntax tree** (`hcl.dfy`, module `Hcl`):
  - a body is a sequence of items: blank lines, attributes and nested blocks;
  - a top-level block is a `class` whose body the generator edits in place;
  - `AppendNewline` and `SetAttributeValue` are its two edits.
- **File discovery** (`discovery.dfy`, module `Discovery`, `determineTerraformFiles`):
  - override files are skipped;
  - every other file is read and parsed, in glob order;
  - the first failure aborts.
- **Block matching** (`matching.dfy`, module `Matching`, `generateProviderBlocks`):
  - a top-level block is returned once if its kind and first label match;
  - a `terraform` settings block is also returned once per matching nested block, and gets a blank line appended each time.
- **Override generation** (`override.dfy`, module `Override`, `createOverrideFile`):
  - no Terraform files is an error;
  - a target that does not split into exactly two parts stops the run with `invalid target format: <target>`;
  - every block returned for a target gets a blank line and the target's `https_proxy`, and is appended to the override body.

The returned blocks are the parsed objects themselves. A block matched several times is therefore edited and appended several times. The model keeps this aliasing: the override body is a sequence of `Block` references.

Each loop is a `method` with loop invariants. Each is proved against a specification function:
- `Discover` for discovery;
- `Matches` and `WithNewlines` for matching;
- `OverrideBody` and `Overridden` for the whole generator.

Lemmas then state what those functions promise: ordering, multiplicity, membership, which attributes survive, and which proxy wins.

The model follows the code as written:
- A target must split into exactly two parts. A three-part `kind/name/alias` target is a format error, not an alias filter (terraform.go:47-50).
- For a nested match, the proxy attribute is set on the outer settings block's own body. No nested block is touched (terraform.go:57-58 acts on the block returned at :81).
- The blocks are edited in place, not cloned. The blank line appended during matching (terraform.go:80) stays on the block.
- An empty set of Terraform files is an error (terraform.go:42-44). A target that matches nothing contributes nothing.

## Model

| member | source | states |
|---|---|---|
| ProxyConfig.Validate | internal/pkg/proxy/config.go:27-34 | passes exactly for `provider` and `backend`; otherwise fails with `invalid provider type: <p>` |
| ProxyConfig.LoadConfig | internal/pkg/proxy/config.go:54-104 | I/O and decode errors propagate; a missing file yields the built-in providers with an empty default proxy; a decoded document with no providers gets the built-in set; success iff every defaulted kind is valid, the result then being the normalised map; on failure the error names an entry whose defaulted kind is invalid |
| ProxyConfig.NormaliseProviders | internal/pkg/proxy/config.go:91-101 | the loop over the entries in an arbitrary order: Ok iff every defaulted kind validates, with the map of defaulted entries; otherwise the `invalid type for provider` error of some invalid entry |
| ProxyConfig.GetProxyForProvider | internal/pkg/proxy/config.go:107-114 | the entry's own proxy when configured; the default proxy when the name is unknown or has no proxy |
| ProxyConfig.GetProviders | internal/pkg/proxy/config.go:117-123 | as many strings as entries, the `kind/name` string of every entry among them; the i-th string is that of the i-th name of an order listing every configured name exactly once |
| ProxyConfig.ValidateRejectsEmpty | internal/pkg/proxy/config.go:27-34 | the empty kind is rejected, which is why loading defaults it first |
| ProxyConfig.DefaultProvidersNormalised | internal/pkg/proxy/config.go:84-89 | the built-in set is `{s3: backend, aws: provider}`, already normalised and valid, so the missing-file and empty-document paths agree |
| ProxyConfig.NormalisedEntries | internal/pkg/proxy/config.go:93-100 | normalisation keeps the names and proxies, maps an empty kind to `provider` and keeps every other kind |
| ProxyConfig.NormalisedIdempotent | internal/pkg/proxy/config.go:93-100 | normalising twice equals normalising once |
| ProxyConfig.ValidTypesHaveNoSeparator | internal/pkg/proxy/config.go:97-99 | after validation every kind is `provider` or `backend`, and so holds no `/` |
| ProxyConfig.ProxyUnchangedByNormalisation | internal/pkg/proxy/config.go:107-114 | defaulting kinds never changes the proxy a name resolves to |
| ProxyConfig.DefaultProvidersUseDefaultProxy | internal/pkg/proxy/config.go:68-73 | with the built-in set, every name resolves to the default proxy |
| ProxyConfig.SplitRenderedTarget | internal/pkg/proxy/config.go:120 | `kind/name` splits into two parts iff neither side holds `/`; those parts are then the kind and the name |
| ProxyConfig.RenderedTargetsDistinct | internal/pkg/proxy/config.go:117-123 | with valid kinds, distinct entries render to distinct target strings |
| Strings.Split | internal/pkg/proxy/terraform.go:47 | the number of parts is the number of separators plus one |
| Strings.JoinSplit | internal/pkg/proxy/terraform.go:47 | joining the parts with the separator gives back the string |
| Strings.SplitNoSeparator | internal/pkg/proxy/terraform.go:47 | a separator-free string is a single part |
| Strings.SplitAround | internal/pkg/proxy/terraform.go:47 | the parts of `a/b` are those of `a` followed by those of `b` |
| Strings.SplitPair | internal/pkg/proxy/terraform.go:47-50 | `a/b` has exactly two parts iff neither side holds `/`, and then the parts are `a` and `b` |
| Strings.SplitInjective | internal/pkg/proxy/config.go:120 | the left side of `a/b` holding no `/` determines both sides |
| Hcl.GetAttribute | internal/pkg/proxy/terraform.go:58 | a found expression belongs to an attribute of that name; none is found only when the body has no such attribute |
| Hcl.Block.constructor | internal/pkg/proxy/terraform.go:138 | a parsed block has the given kind, labels and body |
| Hcl.Block.AppendNewline | internal/pkg/proxy/terraform.go:57 | the body gains one trailing blank line |
| Hcl.Block.SetAttributeValue | internal/pkg/proxy/terraform.go:58 | the body becomes that body with the attribute set to the string literal |
| Hcl.GetSetSame | internal/pkg/proxy/terraform.go:58 | after setting an attribute, reading it yields the new value |
| Hcl.GetSetOther | internal/pkg/proxy/terraform.go:58 | setting one attribute leaves every other attribute's value unchanged |
| Hcl.SetKeepsNested | internal/pkg/proxy/terraform.go:58 | setting an attribute leaves the nested blocks unchanged |
| Hcl.SetSetSame | internal/pkg/proxy/terraform.go:58 | setting the same attribute twice equals setting it once to the second value; no duplicate attribute appears |
| Hcl.NewlinesKeepStructure | internal/pkg/proxy/terraform.go:80 | trailing blank lines change neither the nested blocks nor any attribute |
| Discovery.DetermineTerraformFiles | internal/pkg/proxy/terraform.go:120-146 | the loop's result is `Discover`: override files skipped, the others loaded in order, the first read or parse error returned |
| Discovery.DiscoverLoadsKept | internal/pkg/proxy/terraform.go:128-143 | discovery equals loading exactly the names that are not override files, in order |
| Discovery.KeptIsFilter | internal/pkg/proxy/terraform.go:129-131 | a name is loaded iff it was listed and does not end in `_override.tf` |
| Discovery.LoadAllOk | internal/pkg/proxy/terraform.go:133-142 | a successful load yields one parsed file per name, in the same order |
| Discovery.LoadAllErr | internal/pkg/proxy/terraform.go:133-141 | loading fails iff some name fails to read or parse; it then returns the error of the first such name |
| Discovery.DiscoverIgnoresOverrides | internal/pkg/proxy/terraform.go:129-131 | the contents of override files never affect discovery |
| Matching.GenerateProviderBlocks | internal/pkg/proxy/terraform.go:66-89 | the returned blocks are the blocks at the positions `Matches` lists, in that order; each body gains one blank line per nested match of a settings block, and is otherwise unchanged |
| Matching.MatchBlock | internal/pkg/proxy/terraform.go:71-83 | for one top-level block: the block is repeated once per hit (direct plus nested), and the body gains one blank line per nested hit |
| Matching.NestedMatches | internal/pkg/proxy/terraform.go:76-83 | for the nested blocks of a settings block: the block once per matching nested block, and one trailing blank line appended per match |
| Matching.PositionsOrdered | internal/pkg/proxy/terraform.go:69-70 | positions built block by block never decrease |
| Matching.PositionsCount | internal/pkg/proxy/terraform.go:69-70 | position `j` occurs exactly `counts[j]` times |
| Matching.MatchesOrdered | internal/pkg/proxy/terraform.go:69-70 | matches come in file order, then block order |
| Matching.MatchesCount | internal/pkg/proxy/terraform.go:71-83 | each block occurs among the matches once for a direct match plus once per matching nested block of a settings block |
| Matching.NestedMatchCountPositive | internal/pkg/proxy/terraform.go:76-83 | a settings block has a positive nested count iff one of its nested blocks matches |
| Matching.MatchesMember | internal/pkg/proxy/terraform.go:71-83 | a block is matched iff it matches directly, or it is a `terraform` block holding a matching nested block |
| Matching.PickCount | internal/pkg/proxy/terraform.go:73 | with distinct blocks, each block occurs in the result as often as its position occurs among the matches |
| Matching.PickHas | internal/pkg/proxy/terraform.go:81 | the block at a matched position is returned |
| Matching.PickMember | internal/pkg/proxy/terraform.go:73 | with distinct blocks, a block is returned iff its position is matched |
| Matching.MatchesEmpty | internal/pkg/proxy/terraform.go:66-89 | nothing is returned iff no block has a direct or nested hit |
| Matching.NoMatchesNoChange | internal/pkg/proxy/terraform.go:80 | when nothing matches, no body is changed |
| Matching.WithNewlinesKeepsStructure | internal/pkg/proxy/terraform.go:80 | the blank lines added by matching change neither the nested blocks nor the attributes |
| Matching.FlattenAppend | internal/pkg/proxy/terraform.go:69-70 | the blocks of concatenated file lists are the concatenation of their blocks |
| Matching.FlattenPosition | internal/pkg/proxy/terraform.go:69-70 | block `j` of file `i` sits in the flattened list right after the blocks of the files before `i`, so one loop over it visits the blocks in the order of the two nested loops |
| Override.FirstMalformed | internal/pkg/proxy/terraform.go:46-50 | every target before the returned position splits into two parts; the target at that position, if any, does not |
| Override.CreateOverrideFile | internal/pkg/proxy/terraform.go:33-64 | a discovery error is returned unchanged (tagged `DiscoveryFailed`); no files gives `NoTerraformFiles`; otherwise, for the targets in the enumerated provider order, the result and the edited bodies are those `Processed` describes |
| Override.ProcessTargets | internal/pkg/proxy/terraform.go:46-61 | Ok iff every target is well formed, yielding `OverrideBody`; otherwise `invalid target format` for the first malformed target; the bodies are those left by the targets before it |
| Override.ProcessTarget | internal/pkg/proxy/terraform.go:52-60 | appends the target's matched blocks to the body; the bodies become `Apply` of the target: matching's blank lines, then one stamp per returned block |
| Override.AppendMatches | internal/pkg/proxy/terraform.go:56-60 | the body grows by exactly the matched blocks; each matched position is stamped once per occurrence, in order |
| Override.StampBlock | internal/pkg/proxy/terraform.go:57-58 | a block's body gains a blank line, then the proxy attribute |
| Override.StampedStructure | internal/pkg/proxy/terraform.go:57-58 | stamping sets `https_proxy` to the proxy and keeps the nested blocks and every other attribute |
| Override.StampAllAt | internal/pkg/proxy/terraform.go:56-60 | a stamped body carries the proxy; an unstamped one is unchanged |
| Override.StampAllStructure | internal/pkg/proxy/terraform.go:56-60 | stamping keeps every nested block and every attribute other than `https_proxy` |
| Override.ApplyKeeps | internal/pkg/proxy/terraform.go:52-60 | one target keeps every nested block and every attribute other than `https_proxy` |
| Override.ApplyUnmatched | internal/pkg/proxy/terraform.go:52-60 | a block the target does not match keeps its whole body |
| Override.ApplyMatched | internal/pkg/proxy/terraform.go:52-60 | a block the target matches carries the target's proxy |
| Override.OverriddenKeepsShapes | internal/pkg/proxy/terraform.go:46-61 | processing targets never changes nested blocks, so every target sees the nested blocks as parsed |
| Override.OverriddenKeepsAttributes | internal/pkg/proxy/terraform.go:46-61 | no attribute other than `https_proxy` is ever changed |
| Override.OverriddenUntouched | internal/pkg/proxy/terraform.go:46-61 | a block no target matches keeps its body exactly |
| Override.ProxyOfLastMatch | internal/pkg/proxy/terraform.go:54-58 | a matched block ends up with the proxy of the last target that matches it |
| Override.OverrideBodyIncludes | internal/pkg/proxy/terraform.go:56-60 | every block some target matches is in the override body |
| Override.OverrideBodyOrigin | internal/pkg/proxy/terraform.go:56-60 | with distinct blocks, every block in the override body was matched by some target |
| Override.OverrideBodyFromFiles | internal/pkg/proxy/terraform.go:59 | the override body holds only parsed blocks |
| Override.NoMatchesEmptyOverride | internal/pkg/proxy/terraform.go:56-60 | targets that match nothing are no error: the body stays empty and the blocks unchanged |
| Override.RenderedTargetParts | internal/pkg/proxy/terraform.go:46-54 | an entry's target is well formed iff neither its kind nor its name holds `/`; it then yields that kind, that name and the entry's proxy |
| Override.LoadedTargetsWellFormed | internal/pkg/proxy/terraform.go:46-50 | for a loaded configuration, every target is well formed iff no configured name contains `/` |

## Left out

- The home directory lookup, `os.ReadFile`, and the YAML decoder of `LoadConfig`. They are I/O. Their outcomes are the `ConfigSource` parameter, so only the errors' messages stand in for Go's error values.
- `filepath.Glob` and its error, and the per-file `os.ReadFile` and `hclwrite.ParseConfig`. They are I/O. The glob's names and a `load` function describing each file's read-and-parse outcome are parameters.
- `os.WriteFile(override.Bytes())` and its error. It is I/O. The result of `CreateOverrideFile` is the list of blocks the override body would hold, so the write's own failure is not modelled.
- The byte-level serialisation of `hclwrite`: tokens, comments, formatting and how `SetAttributeValue` renders a string. The model keeps only the structure that matching and stamping read and write.
- `Terraform.Run`, `cleanup`, the executable lookup, the subprocess and `cmd/main.go`. They are process control, outside the override generation.
- Go returns the discovery error of `createOverrideFile` as it is; the model tags it `DiscoveryFailed` so that `OverrideError` holds only the errors that function raises, with the same message.
- Go's error wrapping (`%w`). An error here carries its kind and message fields only.
- Go map iteration order. It is an unspecified, arbitrary choice in the model (`:|`). `GetProviders` returns it as the ghost `order`.
- CreateOverrideFile: the file loop and the block loop of `generateProviderBlocks` are modelled as one loop over the blocks of all files in order (`Flatten`; `FlattenPosition` ties the two orders). The per-target and per-block loop bodies are separate methods (`ProcessTarget`, `AppendMatches`, `MatchBlock`, `NestedMatches`, `StampBlock`).
- CreateOverrideFile: requires the parsed top-level blocks to be distinct objects. Parsing always creates fresh blocks; the model does not derive this.
- Override.Kind and Override.Name are total, with a default for malformed targets. They are used only for well-formed targets, so the default never matters.
- `Provider.String` is the identity on kinds and is not modelled separately.
