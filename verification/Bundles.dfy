/** internal/client/sealedbundle.go: the committed bundle file, its versions and accessors,
    and the name-level diff of internal/client/bundle.go. */
module Bundles {
  import opened Wrappers
  import opened Text
  import opened SortedKeys
  import opened Crypto

  const V2 := "v2"
  const V3 := "v3"
  const V4 := "v4"
  const KIND := "SealedBundle"
  const BUNDLE_SUFFIX := ".app.json"

  datatype SectionSig = SectionSig(signedBy: string, sig: Signature)

  /** One env's slice: entry name to stored (base64) ciphertext, with its optional v2 cluster label
      ("" when absent) and signature. A null entries object reads as an empty one. */
  datatype EnvSection = EnvSection(cluster: string, entries: map<string, string>, sig: Option<SectionSig>)

  type Envs = map<string, EnvSection>

  /** None stands for a map the JSON does not carry. */
  datatype Bundle = Bundle(kind: string, version: string, projectID: int64, minAccessLevel: int64,
                           recipient: string, entries: map<string, string>,
                           recipients: Option<map<string, string>>, envs: Option<Envs>)

  /** A path in the working tree: no file, one that is not bundle JSON, or a bundle. */
  datatype File = Absent | Garbled | Json(bundle: Bundle)

  predicate IsPerEnvVersion(v: string) {
    v == V2 || v == V3 || v == V4
  }

  /** ParseBundle: the kind and shape checks. */
  function ParseBundle(b: Bundle): (r: Result<Bundle>)
    ensures r.Ok? ==> r.value == b
    ensures r.Ok? <==> && b.kind == KIND && (IsPerEnvVersion(b.version) ==> b.envs.Some?)
                       && (b.version == V2 ==> b.recipients.Some?)
  {
    if b.kind != KIND then Err
    else if b.version == V3 || b.version == V4 then (if b.envs.None? then Err else Ok(b))
    else if b.version == V2 then (if b.recipients.None? || b.envs.None? then Err else Ok(b))
    else Ok(b)
  }

  function LoadBundle(f: File): (r: Result<Bundle>)
    ensures r.Ok? && IsPerEnvVersion(r.value.version) ==> r.value.envs.Some?
  {
    match f
    case Json(b) => ParseBundle(b)
    case _ => Err
  }

  /** The sections of a parsed bundle; ranging over a nil map visits nothing. */
  function Sections(b: Bundle): Envs {
    match b.envs case None => map[] case Some(m) => m
  }

  /** Marshalling drops the maps tagged omitempty when they are empty. */
  function WriteBundle(b: Bundle): File {
    Json(b.(envs := if Sections(b) == map[] then None else b.envs,
            recipients := if b.recipients == Some(map[]) then None else b.recipients))
  }

  /** A bundle as every writer of per-env files builds it. */
  function Normalized(version: string, envs: Envs): Bundle {
    Bundle(KIND, version, 0, 0, "", map[], None, Some(envs))
  }

  /** A normalized bundle reads back as written, unless it has no section at all. */
  lemma LoadOfWrite(version: string, envs: Envs)
    requires version == V3 || version == V4
    ensures LoadBundle(WriteBundle(Normalized(version, envs)))
         == if envs == map[] then Err else Ok(Normalized(version, envs))
  {
  }

  /** Any per-env bundle reads back as written, but for the maps that JSON drops when empty: without a section,
      or a v2 one without a recipient, it does not load. */
  lemma LoadOfRewrite(b: Bundle)
    requires b.kind == "SealedBundle" && b.envs.Some?
    requires b.version == "v3" || b.version == "v4" || (b.version == "v2" && b.recipients.Some?)
    ensures LoadBundle(WriteBundle(b))
         == if b.envs == Some(map[]) || (b.version == "v2" && b.recipients == Some(map[])) then Err
            else Ok(b.(recipients := if b.recipients == Some(map[]) then None else b.recipients))
  {
  }

  /** The stored ciphertext behind EnvCiphertext and SelectCiphertext. */
  function StoredEntry(b: Bundle, env: string, name: string): (r: Option<string>)
    ensures r.Some? <==> if b.version == "v2" || b.version == "v3" || b.version == "v4"
                         then b.envs.Some? && env in b.envs.value && name in b.envs.value[env].entries
                         else name in b.entries
    ensures r.Some? ==>
              r.value == if b.version == "v2" || b.version == "v3" || b.version == "v4"
                         then b.envs.value[env].entries[name] else b.entries[name]
  {
    if IsPerEnvVersion(b.version) then
      if env in Sections(b) then Get(Sections(b)[env].entries, name) else None
    else Get(b.entries, name)
  }

  // ---------------------------------------------------------------- name diffs

  datatype NameDiff = NameDiff(added: seq<string>, removed: seq<string>, kept: seq<string>)

  /** The difference of two name sets, each part in sorted order. */
  ghost function NamesDiff(before: set<string>, after: set<string>): NameDiff {
    NameDiff(Sorted(after - before), Sorted(before - after), Sorted(after * before))
  }

  /** The names that are in the set (or those that are not), in the order they are listed. */
  function Filter(names: seq<string>, s: set<string>, inside: bool): seq<string> {
    if names == [] then []
    else
      var front, last := Filter(names[..|names| - 1], s, inside), names[|names| - 1];
      if (last in s) == inside then front + [last] else front
  }

  lemma {:induction false} AscendingSnoc(ks: seq<string>, k: string)
    requires Ascending(ks) && forall j :: 0 <= j < |ks| ==> Less(ks[j], k)
    ensures Ascending(ks + [k])
  {
    if ks != [] {
      assert (ks + [k])[1..] == ks[1..] + [k];
      AscendingSnoc(ks[1..], k);
    }
  }

  lemma {:induction false} AscendingFront(ks: seq<string>)
    requires ks != [] && Ascending(ks)
    ensures Ascending(ks[..|ks| - 1])
  {
    if |ks| > 1 {
      AscendingFront(ks[1..]);
      assert ks[..|ks| - 1] == [ks[0]] + ks[1..][..|ks| - 2];
    }
  }

  /** Filtering a sorted list gives the sorted list of what is kept. */
  lemma FilterSorted(names: seq<string>, s: set<string>, inside: bool)
    requires Ascending(names)
    ensures Filter(names, s, inside) == Sorted(if inside then Elements(names) * s else Elements(names) - s)
  {
    FilterShape(names, s, inside);
    SortedUnique(Filter(names, s, inside), Sorted(if inside then Elements(names) * s else Elements(names) - s));
  }

  lemma FilterStep(front: seq<string>, names: seq<string>, n: nat)
    requires n < |names| && Ascending(names) && Ascending(front) && Elements(front) <= Elements(names[..n])
    ensures Ascending(front + [names[n]]) && Elements(front + [names[n]]) == Elements(front) + {names[n]}
    ensures names[n] !in Elements(names[..n])
  {
    AscendingPairs(names);
    forall j | 0 <= j < |front| ensures Less(front[j], names[n]) {
      assert front[j] in Elements(front) && front[j] in Elements(names[..n]);
      var i :| 0 <= i < n && names[i] == front[j];
    }
    AscendingSnoc(front, names[n]);
  }

  lemma {:induction false} FilterShape(names: seq<string>, s: set<string>, inside: bool)
    requires Ascending(names)
    ensures var r := Filter(names, s, inside);
      Ascending(r) && Elements(r) == if inside then Elements(names) * s else Elements(names) - s
  {
    if names != [] {
      var n := |names| - 1;
      AscendingFront(names);
      FilterShape(names[..n], s, inside);
      ElementsSnoc(names, n);
      assert names[..n + 1] == names;
      FilterStep(Filter(names[..n], s, inside), names, n);
      hide Ascending, Elements;
    }
  }

  /** DiffNames, on any two lists. */
  method DiffNames(oldNames: seq<string>, newNames: seq<string>) returns (d: NameDiff)
    ensures d == NameDiff(Filter(newNames, Elements(oldNames), false), Filter(oldNames, Elements(newNames), false),
                          Filter(newNames, Elements(oldNames), true))
  {
    var added, removed, kept := [], [], [];
    for i := 0 to |newNames|
      invariant added == Filter(newNames[..i], Elements(oldNames), false)
      invariant kept == Filter(newNames[..i], Elements(oldNames), true)
    {
      assert newNames[..i + 1][..i] == newNames[..i];
      if newNames[i] in Elements(oldNames) {
        kept := kept + [newNames[i]];
      } else {
        added := added + [newNames[i]];
      }
    }
    assert newNames[..|newNames|] == newNames;
    for i := 0 to |oldNames|
      invariant removed == Filter(oldNames[..i], Elements(newNames), false)
    {
      assert oldNames[..i + 1][..i] == oldNames[..i];
      if oldNames[i] !in Elements(newNames) {
        removed := removed + [oldNames[i]];
      }
    }
    assert oldNames[..|oldNames|] == oldNames;
    return NameDiff(added, removed, kept);
  }

  /** On sorted lists the diff is that of the two name sets, each part sorted. */
  lemma DiffOfSorted(oldNames: seq<string>, newNames: seq<string>)
    requires Ascending(oldNames) && Ascending(newNames)
    ensures NameDiff(Filter(newNames, Elements(oldNames), false), Filter(oldNames, Elements(newNames), false),
                     Filter(newNames, Elements(oldNames), true))
         == NamesDiff(Elements(oldNames), Elements(newNames))
  {
    FilterSorted(newNames, Elements(oldNames), false);
    FilterSorted(oldNames, Elements(newNames), false);
    FilterSorted(newNames, Elements(oldNames), true);
  }

  // ---------------------------------------------------------------- the file on disk

  /** The bundle file the commands read and rewrite in place. */
  class BundleFile {
    var content: File

    constructor (content: File)
      ensures this.content == content
    {
      this.content := content;
    }

    method Write(b: Bundle)
      modifies this
      ensures content == WriteBundle(b)
    {
      content := WriteBundle(b);
    }
  }
}
