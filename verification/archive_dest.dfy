/**
 * Where archived replays go (packages/shared/src/components/archive-dest.ts and
 * packages/shared/src/utils/object-location.ts): bucket names, key prefixes and the keys made of
 * them.
 */
module ArchiveDest {
  // ---- strings --------------------------------------------------------------------------------

  /** What String.prototype.trim removes. */
  predicate IsSpace(c: char) {
    var n := c as int;
    || 9 <= n <= 13 || n == 0x20 || n == 0xA0 || n == 0x1680 || 0x2000 <= n <= 0x200A
    || n == 0x2028 || n == 0x2029 || n == 0x202F || n == 0x205F || n == 0x3000 || n == 0xFEFF
  }

  predicate IsSlash(c: char) { c == '/' }

  function DropLeading(s: string, drop: char -> bool): (r: string)
    ensures r == [] || !drop(r[0])
    ensures |r| <= |s| && r == s[|s| - |r|..]
  {
    if s == [] || !drop(s[0]) then s else DropLeading(s[1..], drop)
  }

  function DropTrailing(s: string, drop: char -> bool): (r: string)
    ensures r == [] || !drop(r[|r| - 1])
    ensures r <= s
  {
    if s == [] || !drop(s[|s| - 1]) then s else DropTrailing(s[..|s| - 1], drop)
  }

  function Trim(s: string): string { DropTrailing(DropLeading(s, IsSpace), IsSpace) }

  function TrimSlashes(s: string): (r: string)
    ensures r == [] || (r[0] != '/' && r[|r| - 1] != '/')
  {
    DropTrailing(DropLeading(s, IsSlash), IsSlash)
  }

  function UpToSlash(s: string): (r: string)
    ensures '/' !in r
  {
    if s == [] || s[0] == '/' then [] else [s[0]] + UpToSlash(s[1..])
  }

  // ---- buckets --------------------------------------------------------------------------------

  datatype Kind = Gcs | S3

  datatype ObjectLocation = ObjectLocation(kind: Kind, bucket: string)

  const SCHEME: string := "gs://"

  function ParseObjectLocation(raw: string): ObjectLocation {
    var trimmed := Trim(raw);
    if "gs://" <= trimmed then ObjectLocation(Gcs, UpToSlash(TrimSlashes(trimmed[5..])))
    else ObjectLocation(S3, DropTrailing(trimmed, IsSlash))
  }

  function BucketOf(raw: string): string { ParseObjectLocation(raw).bucket }

  predicate SameObjectBucket(a: string, b: string) {
    BucketOf(a) != "" && BucketOf(a) == BucketOf(b)
  }

  /** A bucket name that is read back as itself. */
  predicate Settled(bucket: string) { BucketOf(bucket) == bucket }

  lemma PrefixMember(a: string, b: string, i: nat)
    requires a <= b && i < |a|
    ensures a[i] in b
  {
    assert b[i] == a[i];
  }

  lemma TrimShortens(s: string)
    ensures |Trim(s)| <= |s| && (forall c | c in Trim(s) :: c in s) && (|Trim(s)| == |s| ==> Trim(s) == s)
  {
    var left := DropLeading(s, IsSpace);
    assert forall c | c in Trim(s) :: c in left;
    assert forall c | c in left :: c in s;
  }

  /** A name is settled exactly when it has no space at either end, no slash at its end and no scheme. */
  lemma SettledNames(bucket: string)
    ensures Settled(bucket) <==>
              Trim(bucket) == bucket && DropTrailing(bucket, IsSlash) == bucket && !("gs://" <= bucket)
  {
    TrimShortens(bucket);
    if "gs://" <= Trim(bucket) {
      PrefixMember("gs://", Trim(bucket), 3);
    }
  }

  lemma NothingToDrop(s: string, drop: char -> bool)
    requires forall c | c in s :: !drop(c)
    ensures DropLeading(s, drop) == s && DropTrailing(s, drop) == s
  {
    if s != [] {
      assert s[0] in s && s[|s| - 1] in s;
    }
  }

  predicate PlainName(name: string) { name != "" && forall c | c in name :: !IsSpace(c) && c != '/' }

  lemma PlainNamesSettle(name: string)
    requires PlainName(name)
    ensures Settled(name) && ParseObjectLocation(name).kind == S3
  {
    SettledNames(name);
    NothingToDrop(name, IsSpace);
    NothingToDrop(name, IsSlash);
    if "gs://" <= name {
      PrefixMember("gs://", name, 3);
    }
  }

  lemma DropsLast(s: string, c: char, drop: char -> bool)
    requires drop(c) && (s == [] || !drop(s[|s| - 1]))
    ensures DropTrailing(s + [c], drop) == s
  {
    assert (s + [c])[..|s|] == s;
  }

  lemma DropsFirst(c: char, s: string, drop: char -> bool)
    requires drop(c) && (s == [] || !drop(s[0]))
    ensures DropLeading([c] + s, drop) == s
  {
    assert ([c] + s)[1..] == s;
  }

  lemma TrimKeeps(s: string)
    requires s != [] && !IsSpace(s[0]) && !IsSpace(s[|s| - 1])
    ensures Trim(s) == s
  {
  }

  lemma NoScheme(raw: string, i: nat)
    requires i < 5 && i < |raw| && raw[i] != "gs://"[i]
    ensures !("gs://" <= raw)
  {
  }

  lemma EndsOfPlainName(name: string)
    requires PlainName(name)
    ensures !IsSpace(name[0]) && !IsSpace(name[|name| - 1]) && !IsSlash(name[|name| - 1])
    ensures !("gs://" <= name + [' ', '/'])
  {
    assert name[0] in name && name[|name| - 1] in name;
    if |name| < 4 {
      NoScheme(name + [' ', '/'], |name|);
    } else {
      assert name[3] in name;
      NoScheme(name + [' ', '/'], 3);
    }
  }

  lemma {:induction false} UpToSlashStops(name: string, rest: string)
    requires '/' !in name && (rest == [] || rest[0] == '/')
    ensures UpToSlash(name + rest) == name
  {
    if name == [] {
      assert name + rest == rest;
    } else {
      assert name[0] in name && (name + rest)[1..] == name[1..] + rest;
      UpToSlashStops(name[1..], rest);
    }
  }

  lemma {:induction false} DropTrailingKeeps(name: string, rest: string, drop: char -> bool)
    requires name != [] && !drop(name[|name| - 1])
    ensures DropTrailing(name + rest, drop) == name + DropTrailing(rest, drop)
  {
    if rest == [] {
      assert name + rest == name;
    } else if drop(rest[|rest| - 1]) {
      assert (name + rest)[..|name + rest| - 1] == name + rest[..|rest| - 1];
      DropTrailingKeeps(name, rest[..|rest| - 1], drop);
    }
  }

  lemma SlashesOrPath(rest: string)
    requires rest == [] || rest[0] == '/'
    ensures var kept := DropTrailing(rest, IsSlash); kept == [] || kept[0] == '/'
  {
  }

  lemma NameBeforePath(name: string, path: string)
    requires PlainName(name) && (path == [] || path[0] == '/')
    ensures UpToSlash(TrimSlashes(name + path)) == name
  {
    assert name[0] in name && name[|name| - 1] in name;
    DropTrailingKeeps(name, path, IsSlash);
    SlashesOrPath(path);
    UpToSlashStops(name, DropTrailing(path, IsSlash));
  }

  lemma SchemeStays(scheme: string, rest: string)
    requires |scheme| == 5 && !IsSpace(scheme[0]) && rest != [] && !IsSpace(rest[|rest| - 1])
    ensures Trim(scheme + rest) == scheme + rest && (scheme + rest)[5..] == rest && scheme <= scheme + rest
  {
    TrimKeeps(scheme + rest);
  }

  /** Whatever path follows it, the bucket of a GCS locator is the name after the scheme. */
  lemma GcsLocator(name: string, path: string)
    requires PlainName(name) && (path == [] || path[0] == '/')
    requires path != [] ==> !IsSpace(path[|path| - 1])
    ensures ParseObjectLocation(SCHEME + (name + path)) == ObjectLocation(Gcs, name)
  {
    assert name[|name| - 1] in name;
    NameBeforePath(name, path);
    SchemeStays(SCHEME, name + path);
  }

  lemma {:induction false} BlanksLead(blanks: string, s: string, drop: char -> bool)
    requires (forall c | c in blanks :: drop(c)) && (s == [] || !drop(s[0]))
    ensures DropLeading(blanks + s, drop) == s
  {
    if blanks == [] {
      assert blanks + s == s;
    } else {
      assert blanks[0] in blanks && (blanks + s)[1..] == blanks[1..] + s;
      BlanksLead(blanks[1..], s, drop);
    }
  }

  lemma {:induction false} BlanksTrail(s: string, blanks: string, drop: char -> bool)
    requires (forall c | c in blanks :: drop(c)) && (s == [] || !drop(s[|s| - 1]))
    ensures DropTrailing(s + blanks, drop) == s
  {
    if blanks == [] {
      assert s + blanks == s;
    } else {
      var n := |blanks| - 1;
      assert blanks[n] in blanks && (s + blanks)[..|s + blanks| - 1] == s + blanks[..n];
      BlanksTrail(s, blanks[..n], drop);
    }
  }

  /** Blanks on both sides are dropped, and nothing else. */
  lemma TrimIs(before: string, s: string, after: string)
    requires (forall c | c in before :: IsSpace(c)) && (forall c | c in after :: IsSpace(c))
    requires s != [] && !IsSpace(s[0]) && !IsSpace(s[|s| - 1])
    ensures Trim(before + (s + after)) == s
  {
    assert (s + after)[0] == s[0];
    BlanksLead(before, s + after, IsSpace);
    BlanksTrail(s, after, IsSpace);
  }

  lemma SlashesStand(left: string, inner: string, right: string)
    requires (forall c | c in left :: c == '/') && (forall c | c in right :: c == '/')
    requires inner != [] && (left != [] || !IsSpace(inner[0])) && (right != [] || !IsSpace(inner[|inner| - 1]))
    ensures var core := left + (inner + right);
            core != [] && !IsSpace(core[0]) && !IsSpace(core[|core| - 1])
  {
    var core := left + (inner + right);
    if left != [] { assert core[0] == left[0] && left[0] in left; }
    if right != [] { assert core[|core| - 1] == right[|right| - 1] && right[|right| - 1] in right; }
  }

  lemma SlashesAround(left: string, inner: string, right: string)
    requires (forall c | c in left :: c == '/') && (forall c | c in right :: c == '/')
    requires inner != [] && inner[0] != '/' && inner[|inner| - 1] != '/'
    ensures TrimSlashes(left + (inner + right)) == inner
  {
    assert (inner + right)[0] == inner[0];
    BlanksLead(left, inner + right, IsSlash);
    BlanksTrail(inner, right, IsSlash);
  }

  /** Blanks around a prefix are dropped, and then slashes around it, on both sides. */
  lemma NormalizedPrefixIs(before: string, left: string, inner: string, right: string, after: string)
    requires (forall c | c in before :: IsSpace(c)) && (forall c | c in after :: IsSpace(c))
    requires (forall c | c in left :: c == '/') && (forall c | c in right :: c == '/')
    requires inner != [] && inner[0] != '/' && inner[|inner| - 1] != '/'
    requires (left != [] || !IsSpace(inner[0])) && (right != [] || !IsSpace(inner[|inner| - 1]))
    ensures NormalizeObjectPrefix(before + ((left + (inner + right)) + after)) == inner
  {
    SlashesStand(left, inner, right);
    TrimIs(before, left + (inner + right), after);
    SlashesAround(left, inner, right);
  }

  /** A name may have blanks around it and slashes after it, as long as that does not spell the scheme. */
  lemma S3Locator(before: string, name: string, slashes: string, after: string)
    requires PlainName(name) && (forall c | c in slashes :: c == '/') && !("gs://" <= name + slashes)
    requires (forall c | c in before :: IsSpace(c)) && (forall c | c in after :: IsSpace(c))
    ensures ParseObjectLocation(before + ((name + slashes) + after)) == ObjectLocation(S3, name)
  {
    var core := name + slashes;
    assert name[0] in name && name[|name| - 1] in name;
    assert slashes != [] ==> core[|core| - 1] == slashes[|slashes| - 1] && slashes[|slashes| - 1] in slashes;
    TrimIs(before, core, after);
    BlanksTrail(name, slashes, IsSlash);
  }

  lemma BlanksAreDropped(name: string, blanks: string)
    requires PlainName(name) && blanks != [] && forall c | c in blanks :: IsSpace(c)
    ensures BucketOf(name + blanks) == name && !Settled(name + blanks)
  {
    assert name[0] in name && name[|name| - 1] in name;
    BlanksTrail(name, blanks, IsSpace);
    assert Trim(name + blanks) == name;
    PlainNamesSettle(name);
    TrimKeeps(name);
    assert |name + blanks| != |name|;
  }

  lemma SlashIsDropped(name: string)
    requires PlainName(name)
    ensures ParseObjectLocation(name + [' ', '/']) == ObjectLocation(S3, name + [' '])
  {
    var raw, blank := name + [' ', '/'], name + [' '];
    EndsOfPlainName(name);
    assert raw == blank + ['/'] && blank[|blank| - 1] == ' ';
    TrimKeeps(raw);
    DropsLast(blank, '/', IsSlash);
  }

  /** Parsing is not idempotent: after a space and a slash, the bucket of a locator is not settled. */
  lemma UnsettledBucket(name: string)
    requires PlainName(name)
    ensures ParseObjectLocation(name + [' ', '/']) == ObjectLocation(S3, name + [' '])
    ensures BucketOf(name + [' ']) == name && !Settled(name + [' '])
  {
    SlashIsDropped(name);
    BlanksAreDropped(name, [' ']);
  }

  // ---- prefixes -------------------------------------------------------------------------------

  function NormalizeObjectPrefix(raw: string): string { TrimSlashes(Trim(raw)) }

  function JoinObjectPrefix(prefix: string, key: string): string {
    JoinKey(NormalizeObjectPrefix(prefix), DropLeading(key, IsSlash))
  }

  function StripObjectPrefix(prefix: string, key: string): string {
    StripKey(NormalizeObjectPrefix(prefix), DropLeading(key, IsSlash))
  }

  /** The key is the prefix itself or lies under it. */
  predicate Under(p: string, k: string) { k == p || p + "/" <= k }

  function JoinKey(p: string, k: string): string {
    if p == "" then k else if Under(p, k) then k else p + "/" + k
  }

  function StripKey(p: string, k: string): string {
    if p == "" then k
    else if k == p then ""
    else if p + "/" <= k then k[|p| + 1..]
    else k
  }

  predicate NoLeadingSlash(s: string) { s == "" || s[0] != '/' }

  lemma NothingLeads(s: string)
    requires NoLeadingSlash(s)
    ensures DropLeading(s, IsSlash) == s
  {
  }

  lemma JoinedKeyStays(p: string, k: string)
    requires NoLeadingSlash(p) && NoLeadingSlash(k)
    ensures NoLeadingSlash(JoinKey(p, k)) && JoinKey(p, JoinKey(p, k)) == JoinKey(p, k)
  {
  }

  lemma StripKeyOfJoined(p: string, k: string)
    ensures StripKey(p, JoinKey(p, k)) == StripKey(p, k)
  {
    if p != "" && !Under(p, k) {
      var joined := p + "/" + k;
      assert joined[..|p| + 1] == p + "/" && joined[|p| + 1..] == k;
    }
  }

  lemma RestMakesTheKey(p: string, k: string)
    ensures JoinKey(p, k) == if p == "" then StripKey(p, k) else if k == p then p else p + "/" + StripKey(p, k)
  {
    if p != "" && k != p && p + "/" <= k {
      assert k == k[..|p| + 1] + k[|p| + 1..];
    }
  }

  /** Joining a joined key changes nothing: repeating an archive cannot stack prefixes. */
  lemma JoinIsIdempotent(prefix: string, key: string)
    ensures JoinObjectPrefix(prefix, JoinObjectPrefix(prefix, key)) == JoinObjectPrefix(prefix, key)
  {
    var p, k := NormalizeObjectPrefix(prefix), DropLeading(key, IsSlash);
    JoinedKeyStays(p, k);
    NothingLeads(JoinKey(p, k));
  }

  /** Stripping forgets whether the prefix was there. */
  lemma StripUndoesJoin(prefix: string, key: string)
    ensures StripObjectPrefix(prefix, JoinObjectPrefix(prefix, key)) == StripObjectPrefix(prefix, key)
  {
    var p, k := NormalizeObjectPrefix(prefix), DropLeading(key, IsSlash);
    JoinedKeyStays(p, k);
    NothingLeads(JoinKey(p, k));
    StripKeyOfJoined(p, k);
  }

  /** Two keys share a place in the archive exactly when they strip to the same non-empty rest. */
  lemma SamePlaceIffSameRest(prefix: string, key1: string, key2: string)
    requires StripObjectPrefix(prefix, key1) != "" || NormalizeObjectPrefix(prefix) == ""
    ensures JoinObjectPrefix(prefix, key1) == JoinObjectPrefix(prefix, key2)
            <==> StripObjectPrefix(prefix, key1) == StripObjectPrefix(prefix, key2)
  {
    StripUndoesJoin(prefix, key1);
    StripUndoesJoin(prefix, key2);
    RestMakesTheKey(NormalizeObjectPrefix(prefix), DropLeading(key1, IsSlash));
    RestMakesTheKey(NormalizeObjectPrefix(prefix), DropLeading(key2, IsSlash));
  }

  // ---- the destination ------------------------------------------------------------------------

  datatype ArchiveDestination = ArchiveDestination(
    bucketRaw: string, bucket: string, kind: Kind, prefix: string, storageClass: string)

  datatype Refusal = EmptyBucket | OtherKind | SameBucketNoPrefix

  datatype Resolved =
    | Accepted(dest: ArchiveDestination)
    | Refused(dest: ArchiveDestination, reason: Refusal)

  function DestinationFor(hotBucket: string, archiveBucket: string, prefix: string,
                          storageClass: string): ArchiveDestination
  {
    var archiveRaw := if Trim(archiveBucket) == "" then hotBucket else archiveBucket;
    var loc := ParseObjectLocation(archiveRaw);
    ArchiveDestination(archiveRaw, loc.bucket, loc.kind, NormalizeObjectPrefix(prefix), Trim(storageClass))
  }

  function Decided(hot: ObjectLocation, dest: ArchiveDestination): (r: Resolved)
    ensures r.dest == dest
    ensures r.Accepted? ==>
              dest.bucket != "" && hot.kind == dest.kind && (dest.bucket != hot.bucket || dest.prefix != "")
    ensures r.Refused? ==>
              match r.reason
              case EmptyBucket => dest.bucket == ""
              case OtherKind => dest.bucket != "" && hot.kind != dest.kind
              case SameBucketNoPrefix => hot == ObjectLocation(dest.kind, dest.bucket) && dest.prefix == ""
  {
    if dest.bucket == "" then Refused(dest, EmptyBucket)
    else if hot.kind != dest.kind then Refused(dest, OtherKind)
    else if dest.bucket == hot.bucket && dest.prefix == "" then Refused(dest, SameBucketNoPrefix)
    else Accepted(dest)
  }

  function ResolveArchiveDestination(hotBucket: string, archiveBucket: string, prefix: string,
                                     storageClass: string): Resolved
  {
    Decided(ParseObjectLocation(hotBucket), DestinationFor(hotBucket, archiveBucket, prefix, storageClass))
  }

  /** A named bucket of the same store, other than the hot one, is accepted whatever the prefix. */
  lemma OtherBucketIsAccepted(hotBucket: string, archiveBucket: string, prefix: string, storageClass: string)
    requires var loc := ParseObjectLocation(archiveBucket);
             loc.bucket != "" && loc.kind == ParseObjectLocation(hotBucket).kind && loc.bucket != BucketOf(hotBucket)
    ensures var resolved := ResolveArchiveDestination(hotBucket, archiveBucket, prefix, storageClass);
            resolved.Accepted? && resolved.dest.bucket == ParseObjectLocation(archiveBucket).bucket
  {
  }

  /**
   * An accepted destination moves every hot object that is not under the prefix already, exactly
   * when the prefix still names something once it is normalized again.
   */
  lemma AcceptedDestinationMoves(hotBucket: string, archiveBucket: string, prefix: string,
                                 storageClass: string, key: string)
    requires ResolveArchiveDestination(hotBucket, archiveBucket, prefix, storageClass).Accepted?
    requires NoLeadingSlash(key)
    requires var dest := ResolveArchiveDestination(hotBucket, archiveBucket, prefix, storageClass).dest;
             !Under(NormalizeObjectPrefix(dest.prefix), key)
    ensures var dest := ResolveArchiveDestination(hotBucket, archiveBucket, prefix, storageClass).dest;
            (dest.bucket, JoinObjectPrefix(dest.prefix, key)) != (BucketOf(hotBucket), key)
            <==> dest.bucket != BucketOf(hotBucket) || NormalizeObjectPrefix(dest.prefix) != ""
  {
    NothingLeads(key);
    var p := NormalizeObjectPrefix(
      ResolveArchiveDestination(hotBucket, archiveBucket, prefix, storageClass).dest.prefix);
    assert |p + "/" + key| > |key|;
  }

  predicate Blank(s: string) { s != "" && forall c | c in s :: IsSpace(c) }

  lemma {:induction false} BlanksAreTrimmed(s: string)
    requires forall c | c in s :: IsSpace(c)
    ensures DropLeading(s, IsSpace) == ""
  {
    if s != "" {
      assert s[0] in s;
      BlanksAreTrimmed(s[1..]);
    }
  }

  lemma SlashesAroundDrop(inner: string)
    requires inner != "" && inner[0] != '/' && inner[|inner| - 1] != '/'
    ensures TrimSlashes(['/'] + (inner + ['/'])) == inner
  {
    assert (inner + ['/'])[0] == inner[0];
    DropsFirst('/', inner + ['/'], IsSlash);
    DropsLast(inner, '/', IsSlash);
  }

  lemma BlankPrefix(blank: string)
    requires Blank(blank)
    ensures NormalizeObjectPrefix(['/'] + (blank + ['/'])) == blank && NormalizeObjectPrefix(blank) == ""
  {
    assert blank[0] in blank && blank[|blank| - 1] in blank;
    TrimKeeps(['/'] + (blank + ['/']));
    SlashesAroundDrop(blank);
    BlanksAreTrimmed(blank);
  }

  /** A prefix of blanks between slashes is accepted in the hot bucket, and then moves nothing. */
  lemma BlankPrefixMovesNothing(hotBucket: string, blank: string, key: string)
    requires BucketOf(hotBucket) != "" && Blank(blank) && NoLeadingSlash(key)
    ensures ResolveArchiveDestination(hotBucket, "", ['/'] + (blank + ['/']), "").Accepted?
    ensures var dest := ResolveArchiveDestination(hotBucket, "", ['/'] + (blank + ['/']), "").dest;
            (dest.bucket, JoinObjectPrefix(dest.prefix, key)) == (BucketOf(hotBucket), key)
  {
    NothingLeads(key);
    BlankPrefix(blank);
  }
}
