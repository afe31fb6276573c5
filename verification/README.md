# gitseal in Dafny

gitseal keeps sealed secrets in a git repository. A client seals values into a bundle (env, key,
ciphertext), signs each env section with an SSH key, and a write gate decides which merge requests may
land. A replicated broker decrypts for humans after a live membership check, and a materializer turns
one env of every bundle into Kubernetes Secrets. This project models that logic and proves what holds
over every input and every run.

age, SSH and SHA-256 are symbolic. A ciphertext is the set of keys it is wrapped to, the payload, and
the randomness drawn for it; it opens for the identities of those keys. A signature verifies under the
key that made it over the message it was made of. A digest is the buffer it was taken of. Base64 is an
encoding with a left inverse. The record `Crypto.Age` holds these as functions, and every theorem holds
for each lawful choice of them.

A file is a value that is absent, unreadable or a bundle; a revision is a function from paths to
answers; GitLab is a record of answers; the network is a set or multiset of messages; the cluster's
Secrets are a map that Kubectl operations update. Go's map order is arbitrary: loops over maps pick the
next key without any order, and what they compute is proved equal to a function of the map.

## The modules

| module | component |
|---|---|
| Wrappers, Text, SortedKeys | Option and Result; lines, trimming, decimals; sort.Strings over map keys |
| Framing | the canonical bytes of a section, with a decoder |
| Envelope | the header block inside the AEAD payload, written and parsed |
| Crypto | seal, unseal, the wiped identity buffer, SSH signatures |
| Bundles, Sealing, Signing, Migration | the bundle file and the commands that rewrite it |
| SealContents | one seal or strip: when it succeeds, what the file then holds |
| PutIfAbsent | runs of seal, strip and sign, of either family, against an ideal store |
| Preservation | the migration chain keeps what entries say |
| Isolation | every entry stays wrapped to exactly its two keys |
| Materialize | one env of every bundle into Secrets, apply and prune |
| Authz, MinimalDiff, WriteGate | the diff, the verdict, and the whole gate with signatures |
| Challenge, NonceCluster | one nonce store; nonces over all replicas |
| Recipients, Snapshot | registrations and their fan-out; the served overlay |
| Identity | the fingerprint index built from GitLab |
| Unseal | the keystore and the unseal decision |
| Dotenv | the dotenv reader and writer |

Classes stand where the Go code updates objects in place: `BundleFile`, `ChallengeStore`, `Kubectl`,
`RecipientRegistry`, `EnvMap`, `IdentityIndex`, `MissThrottle`, `KeyHolder`. The identity handed to
`UnsealVerified` is an array that the call wipes; `BuildSecretForBundle` has no `modifies` clause, so
the mounted identity survives because each entry gets a copy.

## What is false, and exactly when

- An envelope comes back as it was sealed exactly when the level is at least 30 and the name brings no
  blank line (`Envelope.NumericRoundTrip`, `KeyedRoundTrip`). Sealing accepts levels 1 to 29 and names
  with blank lines all the same.
- One envelope family is readable by the other family's reader exactly when the level is readable and
  what the entry name shows in the header spells that reader's header on a line of its own
  (`NumericByKey`, `KeyedByNumber`). A name shows itself, up to its first blank line if it brings one; a
  one-line name never spells a header.
- The migration chain keeps an entry's plaintext and level exactly when its name is safe in that sense
  (`Preservation.ChainKeepsEntry`).
- A numeric reseal is a minimal diff exactly when the prior's cluster labels match the map wherever a key
  is shared (`MinimalDiff.ResealV2Minimal`).
- A map survives dotenv printing and parsing exactly when all its keys and values are safe
  (`Dotenv.RoundTrip`); no unsafe key is ever made good by the lines of other keys.
- A materializer job that relied on the project id inside a v2 file builds nothing from the migrated v3
  file, which carries none, until it brings that id itself; then it builds the same Secret
  (`Preservation.StageV3`).
- A bundle written with no section at all does not load again, because the empty map is omitted from the
  JSON (`Bundles.LoadOfWrite`).

Where comments and code disagree the model follows the code. The comment on `StripKeyFromBundle` speaks
of v2 bundles only; the code takes v2, v3 and v4. The comment on `MigrateBundleToV4` says a v4 bundle is
re-signed; the code reads its entries as numeric envelopes and so fails on the first one whose
name spells no project id, as no one-line name does (`Migration.KeyedBundleRefused`). The comments on `AuthzScan` and `DiffBundleEntries` speak of v2 bundles; the code takes
v2, v3 and v4.

## Model

| member | source | states |
|---|---|---|
| SortedKeys.CollectAndSort | internal/client/sign.go:42-46 | whatever order a map yields its keys in, the sorted listing is the same |
| SortedKeys.SortedUnique | internal/client/sign.go:42-46 | a set of names has one strictly ascending listing |
| Text.BlankLine | internal/crypto/v4.go:111-115 | the first blank line, and none before it; None means there is none |
| Text.ParseIntOfDec | internal/crypto/crypto.go:195-196 | a printed natural number below 2^63 is read back through trimming as itself |
| Text.TrimSpaceFixes | internal/crypto/v4.go:127 | trimming leaves a string alone iff neither end is white space |
| Framing.CanonicalSectionBytes | internal/client/sign.go:28-56 | the appending loop produces the digest of the numeric frame, for every map order |
| Framing.CanonicalSectionBytesV4 | internal/client/sign.go:63-89 | the same for the pubkey frame |
| Framing.NumberOfU64 | internal/client/sign.go:30-34 | the eight big-endian bytes of a uint64 read back as it |
| Framing.DecodeV3 | internal/client/sign.go:28-56 | a decoder recovers project id, env and entries from every numeric frame |
| Framing.DecodeV4 | internal/client/sign.go:63-89 | a decoder recovers pubkey, env and entries from every pubkey frame |
| Framing.FrameV3Injective | internal/client/sign.go:28-56 | two numeric sections have one digest iff project id (as int64), env and entries are all equal |
| Framing.FrameV4Injective | internal/client/sign.go:63-89 | two pubkey sections have one digest iff pubkey, env and entries are all equal |
| Framing.FramesDisjoint | internal/client/sign.go:58-62 | no numeric section and pubkey section share a digest |
| Envelope.SealEnvelope | internal/crypto/crypto.go:113-118 | the written bytes are the header block, one blank line, and the plaintext untouched |
| Envelope.ParseHeadersLoop | internal/crypto/crypto.go:187-211 | each header's value comes from its own first line; defaults when absent; an error iff the first occurrence of either is malformed or the level is below 30 |
| Envelope.ParseHeadersV4Loop | internal/crypto/v4.go:121-142 | the same for the recipient header |
| Envelope.ParseLevel | internal/crypto/crypto.go:219-229 | accepted iff it is an integer of at least 30, which is then the level |
| Envelope.EmbeddedID | internal/crypto/crypto.go:169-182 | a reported id is positive |
| Envelope.OpensForEmbedded | internal/crypto/crypto.go:163-182 | the embedded id is reported iff the envelope opens for it, so it is the one project it opens for |
| Envelope.SplitShape | internal/crypto/v4.go:111-115 | the split falls at the header's end iff the header has no blank line of its own, else the body read is longer than the one written |
| Envelope.SplitWritten | internal/crypto/v4.go:111-115 | for every name: the header read holds the name up to its first blank line, and the body read is what the name spills followed by the plaintext |
| Envelope.NumericOpens | internal/crypto/crypto.go:144-161 | under any name a numeric envelope opens for its own project and no other, at its level, to the plaintext behind what the name spills |
| Envelope.KeyedOpens | internal/crypto/v4.go:77-94 | the same for a keyed envelope |
| Envelope.NumericRoundTrip | internal/crypto/crypto.go:113-118 | for every body, the envelope opens for its project to the same level and plaintext iff the level is at least 30 and the name is safe |
| Envelope.KeyedRoundTrip | internal/crypto/v4.go:52-57 | the same for an envelope sealed under a public key |
| Envelope.LowLevelRefused | internal/crypto/crypto.go:225-227 | what was sealed below level 30 opens for nobody, under any name |
| Envelope.UnlevelledOpens | internal/crypto/crypto.go:50-52 | an envelope without a level line opens for its project at level 30 |
| Envelope.NumericByKey | internal/crypto/v4.go:77-94 | for every name: a numeric envelope opens by key iff the level is readable and what its name shows in the header spells that key on a header line |
| Envelope.KeyedByNumber | internal/crypto/crypto.go:144-161 | for every name: a keyed envelope opens by id iff the level is readable and what its name shows in the header spells that id on a header line |
| Envelope.FamiliesDisjoint | internal/crypto/v4.go:73-76 | under a one-line name each family is refused by the other's reader |
| Envelope.OpenedForOne | internal/crypto/crypto.go:154-159 | no envelope, however crafted, opens for two projects of one family |
| Crypto.Seal | internal/crypto/crypto.go:83-106 | sealing succeeds iff id or owner key, level and every recipient are valid, and wraps to exactly the recipients |
| Crypto.Zeroize | internal/crypto/v4.go:144-148 | every byte of the buffer is zero afterwards |
| Crypto.UnsealVerified | internal/crypto/crypto.go:144-161 | the result is that of the identity as passed in, and the caller's identity buffer is all zero on every path |
| Crypto.PayloadRoundTrip | internal/crypto/crypto.go:140-161 | both families: a payload opens for its own project to what went in iff level and name allow it |
| Crypto.UnsealOfSeal | internal/crypto/crypto.go:79-82 | a sealed value comes back to exactly the recipients' identities, when level and name allow it |
| Crypto.UnsealAgrees | internal/crypto/crypto.go:140-161 | whoever opens a ciphertext, for whatever project of a family, sees one project, plaintext and level |
| Bundles.ParseBundle | internal/client/sealedbundle.go:157-200 | accepted iff the kind is right, a per-env bundle has sections and a v2 one its recipients; parsing changes nothing else |
| Bundles.StoredEntry | internal/client/sealedbundle.go:108-132 | a ciphertext is found in the env's section of a per-env bundle, in the flat entries of any other, and nowhere else |
| Bundles.LoadOfWrite | internal/client/sealedbundle.go:395-401 | a normalized bundle loads back as written, unless it has no section, then not at all |
| Bundles.LoadOfRewrite | internal/client/sealedbundle.go:395-401 | any per-env bundle loads back as written, unless it has no section, or is a v2 one without a recipient |
| Bundles.DiffNames | internal/client/bundle.go:119-142 | on any two lists: added, removed and kept are the filtered lists in listed order |
| Bundles.DiffOfSorted | internal/client/bundle.go:119-142 | on sorted lists they are the sorted differences and intersection of the name sets |
| Sealing.SealEntries | internal/client/sealedbundle_v4.go:61-75 | succeeds iff every key not carried over can be sealed; then the resolved keys exactly, carried ones verbatim |
| Sealing.SealEnvs | internal/client/sealedbundle_v4.go:41-86 | succeeds iff every resolved env has a recipient and can be sealed; resolved envs rebuilt unsigned, others untouched |
| Sealing.SealBundleV4 | internal/client/sealedbundle_v4.go:30-97 | the file becomes the sealed v4 bundle or, on any error, stays as it was; the diffs are those of the name sets |
| Sealing.SealBundleV2 | internal/client/sealedbundle.go:288-384 | the file becomes a v3 bundle or, on any error, stays as it was; SealContents says which, in the command's own parameters |
| Sealing.StripKeyFromBundle | internal/client/rotate.go:19-46 | the key is gone from every section and nothing else changed; returns how many sections held it; no write when none did |
| Sealing.StripSections | internal/client/rotate.go:27-34 | the in-place deletions, counted, whatever the map order |
| SealContents.SealV4Accepts | internal/client/sealedbundle_v4.go:54-75 | a v4 seal succeeds iff every env it covers has a recipient and each key no v4 file held yet can be sealed |
| SealContents.SealV4Writes | internal/client/sealedbundle_v4.go:36-45 | a covered env gets exactly the resolved keys, unsigned; any other keeps its section; nothing is taken from a v1, v2 or v3 file |
| SealContents.SealV4Entry | internal/client/sealedbundle_v4.go:61-75 | a key a v4 file held keeps its ciphertext; any other reads back under the project key as the value and level given, for exactly the two keys' identities, iff level and name allow it |
| SealContents.SealV2Accepts | internal/client/sealedbundle.go:297-336 | a numeric seal succeeds iff the file is not another project's, every env it covers maps to a cluster with a recipient, and each key that cannot be carried can be sealed |
| SealContents.SealV2Writes | internal/client/sealedbundle.go:307-379 | the file is v3 without an id; a covered env gets exactly the resolved keys, unlabelled and unsigned; any other keeps its section |
| SealContents.SealV2Entry | internal/client/sealedbundle.go:346-360 | a key under a matching label or none keeps its ciphertext; any other reads back under the project id as the value and level given, for exactly the two keys' identities, iff level and name allow it |
| SealContents.StripLeaves | internal/client/rotate.go:19-46 | after a strip no section holds the key and the rest is as it was, iff the file is not a v2 one without a recipient that had to be rewritten |
| Signing.SignBundleFile | internal/client/sign_bundle.go:14-40 | each section gets the signature over its own canonical bytes; any error leaves the file; both versions |
| Signing.SignSections | internal/client/sealedbundle_v4.go:113-120 | the in-place loop signs every section once, whatever the map order |
| Signing.MessageInjective | internal/client/authz_sig.go:35-44 | two sections, numeric or keyed, are signed over one message iff project identity, env and entries are equal |
| Signing.SignatureBinds | internal/client/authz_sig.go:49-68 | a signature passes the verifier iff its signer is registered with that key at or above the level and no entry, env, project identity or version changed |
| Signing.SignedFilePasses | internal/client/sealedbundle_v4.go:104-125 | after signing a file, each section passes exactly its own project's verifier, iff the signer is authorized |
| Migration.MigrateBundleToV3 | internal/client/migrate_v3.go:35-84 | ciphertexts verbatim, labels and numeric fields dropped, sections re-signed, signed envs returned sorted; on refusal the file is untouched |
| Migration.MigrateV3Accepts | internal/client/migrate_v3.go:36-54 | accepted iff it is a v2 file with recipients, of this project or none, or a v3 file, with at least one env |
| Migration.ResealSections | internal/client/migrate_v4.go:57-95 | the nested loops succeed iff every entry of every env re-encrypts, and then rebuild and sign every section |
| Migration.MigrateBundleToV4 | internal/client/migrate_v4.go:31-111 | the file becomes the re-encrypted v4 bundle or stays as it was; the signed envs are returned sorted |
| Migration.RereadsIff | internal/client/migrate_v4.go:119-129 | an entry is re-read iff the identity opens it: for the file's own id if it has one, for any numeric project if not, for the owner's key if keyed |
| Migration.MigrateV4Accepts | internal/client/migrate_v4.go:36-81 | accepted iff per-env with at least one env, owner key and identity given, a cluster recipient for each env, and every entry so read, under valid keys |
| Migration.ReSealToEnvRecipients | internal/client/migrate_envrecip.go:25-78 | the same for the move to per-env recipients |
| Migration.ReSealAccepts | internal/client/migrate_envrecip.go:30-61 | accepted iff v4, owner key and identity given, a recipient of its own for each env, and every entry opened for the owner's key, under valid keys |
| Migration.MigratedV3Passes | internal/client/migrate_v3.go:66-77 | every section a v3 migration writes passes exactly its numeric verifier, iff the signer is authorized |
| Migration.ResealedPasses | internal/client/migrate_v4.go:85-93 | every section either re-encrypting migration writes passes exactly the keyed verifier, iff the signer is authorized |
| Migration.KeyedReread | internal/client/migrate_v4.go:119-129 | a keyed entry is read as a numeric one iff the identity opens it, its level is readable and its own name spells a positive id on a header line, the bundle's own id if it has one |
| Migration.KeyedBundleRefused | internal/client/migrate_v4.go:69-77 | migrating a v4 bundle again is refused, file untouched, once it holds one entry whose name spells no project id |
| Preservation.RereadIsMeaning | internal/client/migrate_v4.go:119-129 | what a migration reads from an entry is what the entry says for its project |
| Preservation.ResealSays | internal/client/migrate_v4.go:74-82 | a re-sealed entry says what was read iff its name is safe, and opens for the project key and the env's recipient alone |
| Preservation.ResealGrows | internal/client/migrate_v4.go:78-82 | under an unsafe name it says something longer, or nothing |
| Preservation.TwoReseals | internal/client/migrate_envrecip.go:52-62 | after both re-encryptions an entry says what it said at the start iff its name is safe |
| Preservation.ResealSectionSays | internal/client/migrate_v4.go:68-83 | a whole section keeps its keys, plaintexts and levels |
| Preservation.SameData | internal/client/materialize.go:159-181 | sections of the same meaning are read, by identities that open them, to the same data |
| Preservation.StageV3 | internal/client/migrate_v3.go:35-84 | the v3 migration keeps every entry string and, for a job bringing the id that was used before, the built Secret; a job without an id builds nothing |
| Preservation.StageReseal | internal/client/migrate_v4.go:57-95 | each re-encrypting stage builds the same Secret, with that stage's identity and discriminator |
| Preservation.ChainShape | internal/client/migrate_envrecip.go:25-78 | the file after each of the three migrations loads, in the next version, with the same envs |
| Preservation.ChainPreserves | internal/client/materialize.go:108-182 | v2 to v3 to v4 to per-env recipients: same envs, same keys, plaintexts and levels in each env that materializes under the job's or the bundle's id, and the same Secret at every stage |
| Preservation.ChainKeepsEntry | internal/client/migrate_v4.go:57-111 | with no assumption on any reader: every entry the chain accepts is there at the end and says, for the project key, what it said for its embedded id iff its name is safe |
| Preservation.ResealedOpens | internal/client/migrate_v4.go:66-82 | a re-sealed entry opens for the project key for exactly the owner's and the env recipient's identities, under any name |
| Preservation.ChainAccepts | internal/client/migrate_envrecip.go:25-78 | the whole chain goes through iff the input is a complete v2 file of this project or none, or a v3 file, with at least one env, every env has both recipients, and every entry opens for the migrating identity, which is the owner's or the env's cluster's |
| PutIfAbsent.RunRefines | internal/client/sealedbundle_v4.go:36-97 | over any run of seal, strip and sign from no file, keyed or numeric, the file represents the ideal put-if-absent store |
| PutIfAbsent.RunReadsBack | internal/client/sealedbundle_v4.go:61-75 | after any run the file has exactly the ideal store's entries, and of each exactly the project's and the env recipient's identities read the stored value and level, iff level and name allow it |
| PutIfAbsent.FirstSealWins | internal/client/sealedbundle_v4.go:64-69 | a present value, its level and its recipient were given by the seal that last found the key absent, and the key has been there ever since |
| PutIfAbsent.KeysOfLatestSeal | internal/client/rotate.go:27-34 | an env's keys are those of its latest accepted seal, less the keys stripped since |
| PutIfAbsent.ScopedSealKeeps | internal/client/sealedbundle_v4.go:41-45 | envs outside a scoped seal keep entries and signature unchanged |
| Isolation.MigrationsIsolate | internal/client/migrate_v4.go:57-95 | either re-encrypting migration leaves every entry wrapped to exactly the project key and its env's recipient, whatever it was given |
| Isolation.RunIs | internal/client/sealedbundle.go:380-382 | a run is one command after another on the file the last one left; a failing command leaves it |
| Isolation.RunIsolated | internal/client/sealedbundle.go:327-363 | any run of the seven authoring commands from an absent file, with a fixed env-to-recipient map, leaves every entry wrapped to exactly the project key and its env's recipient |
| Isolation.OutsiderFails | internal/client/materialize.go:159-179 | after such a run, any other identity never materializes an env that has an entry |
| Materialize.AssembleSecret | internal/client/materialize.go:190-230 | accepted iff service, namespace and computed name are DNS labels (section 2.1 of RFC 1123), and a docker secret has one entry; then name, type and the data itself, re-keyed for docker |
| Materialize.SecretNamesDistinct | internal/client/materialize.go:205-220 | two services have one Secret name iff they are one service, docker-secret included |
| Materialize.LabelIs | internal/client/materialize.go:18-31 | a label is 1 to 63 lower-case letters, digits and hyphens, with no hyphen at either end |
| Materialize.ServiceOfPath | internal/client/materialize.go:235-237 | a bundle's path names the service it was made from |
| Materialize.GlobbedServices | cmd/sealdctl/main.go:1207-1215 | the distinct paths of one directory name distinct services |
| Materialize.DecryptEntries | internal/client/materialize.go:153-179 | succeeds iff every entry is readable; the mounted identity is unchanged by the wiping of its copies |
| Materialize.BuildSecretForBundle | internal/client/materialize.go:108-182 | the whole result as a function of bundle, job and the identity, which is not modified |
| Materialize.BuildAccepts | internal/client/materialize.go:108-182 | built iff the bundle is per-env and has the env, its label if any is this cluster's, every entry opens for the mounted identity and the one project, and the names are DNS labels |
| Materialize.BuildHolds | internal/client/materialize.go:159-181 | the Secret holds every entry under its own name as its plaintext; for docker-secret the one plaintext under the well-known key |
| Materialize.BuildAll | cmd/sealdctl/main.go:1252-1264 | every Secret is built, or the run stops with none |
| Materialize.BuiltNamesDistinct | cmd/sealdctl/main.go:1252-1264 | the built Secrets have distinct names |
| Materialize.ApplyAll | cmd/sealdctl/main.go:1277-1282 | succeeds iff no apply fails; then every built Secret is live as rendered; foreign Secrets are kept either way |
| Materialize.Prune | cmd/sealdctl/main.go:1284-1302 | deletes only managed Secrets that are not wanted; succeeds iff listing and each needed delete do, and then none is left |
| Materialize.Materialize | cmd/sealdctl/main.go:1211-1304 | succeeds iff there are bundles, all build, all apply, and listing and each needed delete work; a build failure leaves the cluster untouched; success leaves exactly the built names managed; foreign Secrets survive every outcome |
| Materialize.MaterializeTwice | cmd/sealdctl/main.go:1277-1302 | of two successful runs the second changes nothing |
| Authz.DiffBundleEntries | internal/client/authz_diff.go:38-82 | lists, each once, exactly the positions whose stored text differs, with their kind |
| Authz.ReplayGivesCurrent | internal/client/authz_diff.go:25-31 | replaying the diff on the prior bundle gives the current one at every position; a position is reported iff it differs |
| Authz.ReportedKinds | internal/client/authz_diff.go:50-79 | added, removed or changed is reported at a position iff it is only in the current, only in the prior, or in both with different text |
| Authz.AuthzScan | internal/client/authz_scan.go:33-63 | succeeds iff every listed sealed path is, at base and at head, absent or a bundle of kind SealedBundle and version v2, v3 or v4 with the maps it needs: a git error, other JSON or another version fails it; then all changes, stamped, whatever the order or repeats of the list |
| Authz.ScanOkReadable | internal/client/authz_scan.go:74-90 | the same condition, of the specification the gate's theorems use |
| Authz.StoredInTree | internal/client/authz_scan.go:40-60 | a position is stored iff the tree has a readable bundle at a sealed path with that env and key |
| Authz.EnvsTouched | internal/client/authz_diff.go:87-98 | the distinct envs, sorted |
| Authz.MinLevelForEnv | internal/client/seal.go:67-72 | the env's own level if positive, else the repository's if positive, else 30; so never zero |
| Authz.AuthzVerdict | internal/client/authz_verdict.go:40-75 | exactly the violations of the three rules, each once |
| Authz.ViolationsAre | internal/client/authz_verdict.go:45-71 | each violation appears iff its own rule is broken, with the level needed and the level had |
| Authz.ChangesAreDifferences | internal/client/authz_scan.go:44-60 | an env of a file is in the scan's changes iff some entry of it is stored differently at base and head |
| Authz.ScannedKinds | internal/client/authz_scan.go:57-60 | a change is listed under a path iff it is in the diff of that path's sections at base and at head |
| Authz.GateExact | internal/client/authz_verdict.go:25-39 | no violation iff each env that differs anywhere in the trees is declared and within the author's level, and a policy edit has level 50 |
| Authz.GateMonotone | internal/client/authz_verdict.go:40-75 | a higher level never loses; only the set of listed paths matters |
| WriteGate.EnvsByFile | cmd/sealdctl/authz.go:100-106 | a file maps to an env iff some change is there |
| WriteGate.CheckSignatures | cmd/sealdctl/authz.go:107-138 | counts no violation iff every changed section still at head passes the verifier of its version |
| WriteGate.CmdVerifyAuthz | cmd/sealdctl/authz.go:46-147 | the command's answer, from scan to signatures, with its early exits; never yes with an unreadable sealed file among the listed ones |
| WriteGate.PassesExact | cmd/sealdctl/authz.go:41-45 | the gate passes iff every env that differs anywhere in the trees is writable by the author and attributed at head, and a policy edit comes from level 50 |
| WriteGate.VerifiesIffSigned | internal/client/authz_sig.go:22-34 | a section verifies iff some authorized signer signed those very entries for that env and project |
| WriteGate.LandedIsAttested | cmd/sealdctl/authz.go:91-96 | after a pass, every head section that differs from base carries an authorized signer's signature over exactly its entries |
| WriteGate.SignedFileAttributed | cmd/sealdctl/authz.go:119-136 | a section of a signed file, v3 by id or v4 by key, is attributed iff its signer is authorized for the env |
| WriteGate.MadeDiffers | internal/client/authz_diff.go:25-31 | of a sealed and signed file the gate sees the envs the seal added a key to or dropped one from, no others |
| WriteGate.SealedMergePasses | cmd/sealdctl/authz.go:91-142 | seal, sign, merge: the gate passes iff the author may write, and the signer is authorized for, each of those envs |
| MinimalDiff.SealDiffIs | internal/client/sealedbundle_v4.go:54-79 | the diff of any seal against its prior is the added, the dropped and the rewritten keys, nothing else |
| MinimalDiff.ResealV4Minimal | internal/client/sealedbundle_v4.go:24-29 | a v4 reseal reports exactly the newly resolved and the dropped keys, never a changed one |
| MinimalDiff.ResealV2Minimal | internal/client/sealedbundle.go:338-354 | a numeric reseal is minimal iff the cluster labels match where a key is shared; always on a v3 prior |
| MinimalDiff.NameDiffAgrees | internal/client/sealedbundle_v4.go:81-85 | the name diff returned to the user agrees with the gate's diff, env by env |
| Challenge.ChallengeStore.Issue | internal/broker/challenge.go:43-63 | refuses iff 4096 unexpired nonces remain after the sweep; else exactly the swept map with the new nonce |
| Challenge.ChallengeStore.Consume | internal/broker/challenge.go:67-76 | true iff held and the expiry is not past; the nonce is gone either way |
| Challenge.ConsumeNonce | internal/broker/challenge.go:102-147 | with peers reachable: true iff some store held the nonce unexpired; no store loses anything else |
| Challenge.RunRefines | internal/broker/challenge.go:34-76 | over any run with a non-decreasing clock: at most 4096 entries, and every answer is that of a store that never sweeps |
| Challenge.ConsumeExact | internal/broker/challenge.go:43-76 | in such a run a nonce is accepted iff it was recorded, not presented since, and at most ttl has passed; sweeps and refusals change nothing |
| NonceCluster.RunKeepsOnePlace | internal/broker/challenge.go:95-101 | in every run a nonce is on at most one replica or with at most one call, finished and crashed ones included, never both, with the expiry it was issued with |
| NonceCluster.SingleUse | internal/broker/challenge.go:102-180 | over the history of every run - any interleaving, lost, late or repeated posts, bad signatures, restarts - consumeNonce answers true for a nonce at most once, to one call at one moment, and only for an issued one |
| NonceCluster.NeverLate | internal/broker/challenge.go:67-76 | a nonce is won only by a Consume before its expiry |
| NonceCluster.IssueHolds | internal/broker/challenge.go:43-63 | an Issue that finds room leaves the nonce on its replica, until now plus ttl |
| NonceCluster.HeldStays | internal/broker/challenge.go:49-76 | nothing takes an unexpired nonce off its replica but a Consume of it there or a restart |
| NonceCluster.LoopEnds | internal/broker/challenge.go:115-147 | consumeNonce answers false after the last peer said no or was not reached, and at once without peers |
| NonceCluster.RestartIs | internal/broker/challenge.go:95-101 | a restart loses that pod's nonces and unfinished calls, and nothing of any other pod |
| NonceCluster.LocalAccepts | internal/broker/challenge.go:102-105 | a call whose own pod holds its nonce is answered true iff the expiry it was issued with is not past |
| NonceCluster.PeerAccepts | internal/broker/challenge.go:134-144 | a post reaching the holder in time brings a yes, which ends the waiting call's consumeNonce with true |
| NonceCluster.PromptLogin | internal/broker/ssh_auth.go:20-55 | after any run, a nonce outstanding anywhere, presented in time to a pod that reaches its issuer with a signature by the key of the fingerprint, authenticates that key's user |
| NonceCluster.NoReplay | internal/broker/ssh_auth.go:20-55 | successful authentications inject into the issued nonces, each with a signature over its nonce by a key of the presented fingerprint |
| Recipients.RecipientRegistry.Set | internal/broker/recipient_registry.go:50-54 | one entry replaced, the rest kept |
| Recipients.RecipientRegistry.ForProject | internal/broker/recipient_registry.go:57-67 | exactly the project's entries, whatever the map order |
| Recipients.Status | internal/broker/recipient_registry.go:83-105 | 200 iff the token is set and presented by a POST with project, env and recipient; which of 503, 405, 401 and 400 otherwise |
| Recipients.HandleRecipientRegister | internal/broker/recipient_registry.go:83-163 | the status of every request; a 200 has the effect every step of the replica system has: stored, and only an original one forwarded, once to each peer and marked |
| Recipients.EntriesWerePosted | internal/broker/recipient_registry.go:83-127 | in every run each replica's entry was registered by some client for that project and env |
| Recipients.ForwardsBounded | internal/broker/recipient_registry.go:114-123 | every message in flight carries the loop-breaking header, so forwards, handled like any request, never spawn forwards: at most originals times peers are ever sent |
| Recipients.UnmarkedSpawns | internal/broker/recipient_registry.go:114-123 | without the header one message would be forwarded to every peer |
| Recipients.Converges | internal/broker/recipient_registry.go:132-163 | one registration, nothing competing, all forwards delivered: every replica has that entry |
| Snapshot.OverlayProject | internal/broker/registry.go:121-140 | a fresh map with the overlay; the shared one is not written |
| Snapshot.HandleRegistrySnapshot | internal/broker/registry.go:108-148 | for any visiting order the served projects are the overlay, and no existing object is modified |
| Snapshot.ServedIs | internal/broker/registry.go:106-143 | every configured env is served, as configured unless registered, every registered one with its recipient, and no other |
| Snapshot.OverlayMeaning | internal/broker/registry.go:115-118 | corollary, field by field: the registered recipient wins, delivery settings a registration leaves unset stay as configured, unregistered envs are as configured, no env is lost or invented |
| Snapshot.OverlayIdempotent | internal/broker/registry.go:127-140 | overlaying the same registrations again changes nothing |
| Snapshot.RegistrationIsLocal | internal/broker/registry.go:127-140 | a registration changes no served env but its own |
| Identity.AddKeys | internal/broker/identity_index.go:109-115 | unparseable lines are skipped; the index then covers exactly one more user |
| Identity.BuildIndex | internal/broker/identity_index.go:86-119 | fails iff GitLab does where it matters; else exactly the fingerprints of visible projects' members, each with an owner, each user's keys fetched once |
| Identity.BuildableIs | internal/broker/identity_index.go:89-108 | a build fails iff a project's members or a listed user's keys cannot be fetched for now; an invisible project is no failure |
| Identity.IndexIs | internal/broker/identity_index.go:86-119 | in GitLab's own answers: a fingerprint is indexed iff a visible project lists a user showing a key line of it, and its entry is such a user with such a line |
| Identity.IndexUnique | internal/broker/identity_index.go:80-85 | when no fingerprint has two owners or lines, a user set has only one index |
| Identity.BuildsAgree | internal/broker/identity_index.go:80-119 | two builds over the same projects, in any order and with any repeats, come to the same index |
| Identity.IdentityIndex.Swap | internal/broker/identity_index.go:56-64 | replaced iff the new index is not empty |
| Identity.Reconcile | internal/broker/identity_reconcile.go:95-113 | a disabled, failed or empty build keeps the index; any other becomes it |
| Identity.MissThrottle.OnMissRefresh | internal/broker/identity_reconcile.go:139-155 | a throttled miss touches neither the time nor the index |
| Identity.LatestAccepted | internal/broker/identity_reconcile.go:91-94 | over any run the index is the latest non-empty build, and empty only if there was none |
| Identity.RefreshesApart | internal/broker/identity_reconcile.go:133-159 | any two misses that each trigger a rebuild are at least ten seconds apart |
| Identity.RefreshedExact | internal/broker/identity_reconcile.go:139-150 | with a clock that does not go back, a miss triggers a rebuild iff it is ten seconds or more after every earlier one that did |
| Unseal.KeyHolder.SwapKeys | internal/broker/reload.go:86-95 | replaced iff the new keystore is not empty |
| Unseal.KeyHolder.ReloadOnce | internal/broker/reload.go:102-116 | a failed or empty load keeps the keys |
| Unseal.KeyHolder.KeyFor | internal/broker/reload.go:28-39 | the id's identity, if held and not empty |
| Unseal.KeyHolder.KeyForPubkey | internal/broker/reload.go:50-69 | some identity of this public key with the id it is held under; none iff there is none |
| Unseal.NeverBlanked | internal/broker/reload.go:81-85 | the keys are those of the latest load that brought any, else what they were; so never none again |
| Unseal.HandleUnseal | internal/broker/broker.go:150-339 | the handler's answer, denial codes included, given the keystore at each of its two reads, with any reloads in between |
| Unseal.UnsealExact | internal/broker/broker.go:276-330 | a plaintext is returned iff the request is well formed, its caller is live, an identity was held at its read, GitLab answers 200 with a level for that caller and project, and the ciphertext opens at no more than that level; the Developer baseline does not appear |
| Unseal.MembershipDenials | internal/broker/broker.go:276-290 | without such an answer nothing is released: 503 for unreachable, another status or an unreadable body, 403 for a 404 and for a level below 30 |
| Unseal.ReleaseDenials | internal/broker/broker.go:292-330 | behind it: 404 without an identity, 400 for what it does not open, 403 below the embedded level, else the plaintext |
| Unseal.EarlyDenials | internal/broker/broker.go:179-239 | the codes of the legs before it |
| Unseal.GateDenials | internal/broker/broker.go:154-172 | 403, 405 and 400 for a missing assertion, another method and an unreadable body |
| Unseal.OnlyLiveHumans | internal/broker/broker.go:218-273 | corollary: on either leg, a plaintext leaves only for an account GitLab called active and human during this request |
| Unseal.ReleasedIsSealed | internal/broker/broker.go:306-338 | what leaves is the very plaintext sealed, for the project it was sealed for, to a caller at or above the level sealed with it |
| Unseal.OpensAsSealed | internal/crypto/crypto.go:144-161 | a ciphertext sealed under a one-line name opens for no project but its own, and then to what was sealed |
| Dotenv.ParseEnv | internal/client/bundle.go:35-58 | the settings of the lines that parse, a later line winning |
| Dotenv.RenderSecrets | internal/client/bundle.go:62-75 | one line a key, in sorted order, whatever the map order |
| Dotenv.LineRoundTrip | internal/client/bundle.go:38-55 | for every key and value: the written line reads back as them iff both are plain |
| Dotenv.ExportDropped | internal/client/bundle.go:42 | a leading export changes nothing |
| Dotenv.QuotesDropped | internal/client/bundle.go:49-52 | a value in matching quotes loses them and keeps everything between |
| Dotenv.Silent | internal/client/bundle.go:38-46 | blank lines, comments, lines without an equals sign and those with an empty name say nothing |
| Dotenv.RoundTrip | internal/client/bundle.go:35-75 | printing then parsing is the identity on a map iff all its keys and values are safe |
| Dotenv.ReadBackPlain | internal/client/bundle.go:37-56 | in a map that is read back no key is commented out or export-prefixed, and no value quoted or untrimmed: an odd key would have to come from a longer odd key |
| Dotenv.SettingRoundTrip | internal/client/bundle.go:35-75 | corollary: a single setting survives iff its key and value are safe |

## Left out

- AuthzVerdict: the violation texts and the sort by text; the list is exact up to order.
- ConsumeNonce: the loop with every peer reachable; lost, late and repeated posts are in the step system of NonceCluster.
- HandleUnseal: what authViaSSH makes of a request is an input here (its runs are in NonceCluster), and the reloads between the two keystore reads are given as a list.
- Draining and the readiness answer: nothing here depends on them.
- ReloadOnce: the returned skip list; the load itself is an input.
- CmdVerifyAuthz: resolving the CI inputs and the repository config; both are inputs.
- Snapshot: a registration arriving between the listing of projects and the reading of one; legacy env_cluster fields of projects.json.
- Convergence when registrations of one key compete: replicas may then disagree until the next reconcile.
- HTTP, DNS peer discovery, JSON, YAML, git and kubectl transport: their outcomes are inputs; error texts are one value.
- A broken base64 entry and a well-formed one that is not an age ciphertext are one case: both fail to open.
- Framing takes strings as bytes; Envelope and Dotenv as code points, so trimming of invalid UTF-8 is not modelled.
- An ssh-agent that fails to sign, and a key that cannot be parsed again after indexing.
- The v1 flat bundle: SealBundle, its merge and prune; only its loading is modelled.
- The json and yaml formats of ParseSource and RenderSecrets.
- kubectl failures that differ between two calls for one Secret name: which names fail is fixed for the Kubectl object.
- The emit-yaml mode of cmdMaterialize and the rendering of manifests.
- LoadKeyDir, KeyFile, SetEnvV2, VerifyBundle, ResolveEnvs, PlanEnvReconcile, Helm charts and the CLI around the commands: only easy members.
- Deadlines, request size limits and GitLab pagination beyond the first page of members.
- Randomness: nonces are issued fresh; ciphertexts carry the randomness drawn for them, and only the converse half of ResealV2Minimal uses that a fresh ciphertext is a new text.
