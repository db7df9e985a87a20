/** Access URLs for stored files: one at a time, and in batches grouped by bucket. */
module StorageUrls {
  import opened Options
  import opened StorageKeys

  datatype AccessUrl = AccessUrl(url: string, expiresAt: Option<int>)

  /** The storage client, by bucket and path: signing may fail; a batch reply is aligned with its request. */
  datatype Client = Client(sign: (string, string, nat) -> Option<string>, publicUrl: (string, string) -> string)

  datatype Location = Location(bucket: string, path: string)

  // ---------- One key ----------

  function Locate(b: Buckets, key: string): Result<Location> {
    match VisibilityFromKey(key)
    case Err(e) => Err(e)
    case Ok(v) =>
      match PathFor(key)
      case Err(e) => Err(e)
      case Ok(path) => Ok(Location(BucketFor(b, v), path))
  }

  function PublicUrl(b: Buckets, c: Client, key: string): Result<AccessUrl> {
    match VisibilityFromKey(key)
    case Err(e) => Err(e)
    case Ok(Private) => Err(NotPublic)
    case Ok(Public) =>
      match PathFor(key)
      case Err(e) => Err(e)
      case Ok(path) => Ok(AccessUrl(c.publicUrl(b.publicBucket, path), None))
  }

  function SignAt(c: Client, loc: Location, ttl: nat, now: int): Result<AccessUrl> {
    match c.sign(loc.bucket, loc.path, ttl)
    case None => Err(SigningFailed)
    case Some(url) => Ok(AccessUrl(url, Some(now + ttl * 1000)))
  }

  function SignedUrl(b: Buckets, c: Client, key: string, ttl: nat, now: int): Result<AccessUrl> {
    match Locate(b, key)
    case Err(e) => Err(e)
    case Ok(loc) => SignAt(c, loc, ttl, now)
  }

  function GetAccessUrl(b: Buckets, c: Client, key: string, ttl: nat, now: int): Result<AccessUrl> {
    match VisibilityOf(key)
    case Err(e) => Err(e)
    case Ok(Public) => PublicUrl(b, c, key)
    case Ok(Private) => SignedUrl(b, c, key, ttl, now)
  }

  /** A batch, unlike a single signing, also refuses an empty URL. */
  function NonEmpty(r: Result<AccessUrl>): Result<AccessUrl> {
    if r.Ok? && r.value.url == "" then Err(SigningFailed) else r
  }

  function InBatch(b: Buckets, c: Client, key: string, ttl: nat, now: int): Result<AccessUrl> {
    match VisibilityOf(key)
    case Err(e) => Err(e)
    case Ok(Public) => PublicUrl(b, c, key)
    case Ok(Private) => NonEmpty(SignedUrl(b, c, key, ttl, now))
  }

  /** The whole batch stands or falls with its keys, slot by slot. */
  ghost predicate SlotBySlot(r: Result<seq<AccessUrl>>, keys: seq<string>, one: string -> Result<AccessUrl>) {
    match r
    case Ok(urls) => |urls| == |keys| && forall i :: 0 <= i < |keys| ==> one(keys[i]) == Ok(urls[i])
    case Err(e) => exists i :: 0 <= i < |keys| && one(keys[i]) == Err(e)
  }

  // ---------- Grouping by bucket ----------

  datatype Slot = Slot(path: string, index: nat)

  /** A bucket's slots are of keys located there, in the order of the keys. */
  ghost predicate GroupSound(b: string, slots: seq<Slot>, locs: seq<Location>) {
    && (forall k :: 0 <= k < |slots| ==> slots[k].index < |locs| && locs[slots[k].index] == Location(b, slots[k].path))
    && (forall k, l :: 0 <= k < l < |slots| ==> slots[k].index < slots[l].index)
  }

  ghost predicate Filed(groups: map<string, seq<Slot>>, locs: seq<Location>) {
    && (forall b :: b in groups ==> GroupSound(b, groups[b], locs))
    && (forall j :: 0 <= j < |locs| ==> locs[j].bucket in groups && HasIndex(groups[locs[j].bucket], j))
  }

  ghost predicate HasIndex(slots: seq<Slot>, j: nat) {
    exists k :: 0 <= k < |slots| && slots[k].index == j
  }

  /** The buckets in the order they were first met, each once. */
  ghost predicate Named(groups: map<string, seq<Slot>>, names: seq<string>) {
    && (forall b :: b in groups <==> b in names)
    && (forall m, n :: 0 <= m < n < |names| ==> names[m] != names[n])
  }

  lemma FileKeepsNamed(groups: map<string, seq<Slot>>, names: seq<string>, loc: Location, index: nat)
    requires Named(groups, names)
    ensures Named(File(groups, loc, index), if loc.bucket in groups then names else names + [loc.bucket])
  {
  }

  /** The locations of the first keys. */
  ghost predicate Located(b: Buckets, keys: seq<string>, locs: seq<Location>) {
    |locs| <= |keys| && forall j :: 0 <= j < |locs| ==> Locate(b, keys[j]) == Ok(locs[j])
  }

  function Group(groups: map<string, seq<Slot>>, bucket: string): seq<Slot> {
    if bucket in groups then groups[bucket] else []
  }

  function File(groups: map<string, seq<Slot>>, loc: Location, index: nat): map<string, seq<Slot>> {
    groups[loc.bucket := Group(groups, loc.bucket) + [Slot(loc.path, index)]]
  }

  lemma GroupExtends(b: string, slots: seq<Slot>, locs: seq<Location>, loc: Location)
    requires GroupSound(b, slots, locs)
    ensures GroupSound(b, slots, locs + [loc])
    ensures loc.bucket == b ==> GroupSound(b, slots + [Slot(loc.path, |locs|)], locs + [loc])
  {
  }

  lemma IndexStays(slots: seq<Slot>, slot: Slot, j: nat)
    ensures HasIndex(slots, j) ==> HasIndex(slots + [slot], j)
    ensures HasIndex(slots + [slot], slot.index)
  {
    assert (slots + [slot])[|slots|] == slot;
    if HasIndex(slots, j) {
      var k :| 0 <= k < |slots| && slots[k].index == j;
      assert (slots + [slot])[k].index == j;
    }
  }

  lemma FileKeepsFiled(groups: map<string, seq<Slot>>, locs: seq<Location>, loc: Location)
    requires Filed(groups, locs)
    ensures Filed(File(groups, loc, |locs|), locs + [loc])
  {
    var slot := Slot(loc.path, |locs|);
    var out := File(groups, loc, |locs|);
    var all := locs + [loc];
    forall b | b in out
      ensures GroupSound(b, out[b], all)
    {
      GroupExtends(b, Group(groups, b), locs, loc);
    }
    forall j | 0 <= j < |all|
      ensures all[j].bucket in out && HasIndex(out[all[j].bucket], j)
    {
      IndexStays(Group(groups, loc.bucket), slot, j);
      assert j < |locs| ==> HasIndex(groups[locs[j].bucket], j);
    }
  }

  ghost predicate Grouped(b: Buckets, keys: seq<string>, groups: map<string, seq<Slot>>, names: seq<string>, locs: seq<Location>) {
    Located(b, keys, locs) && Filed(groups, locs) && Named(groups, names)
  }

  lemma GroupsOne(b: Buckets, keys: seq<string>, groups: map<string, seq<Slot>>, names: seq<string>, locs: seq<Location>, loc: Location)
    requires Grouped(b, keys, groups, names, locs) && |locs| < |keys| && Locate(b, keys[|locs|]) == Ok(loc)
    ensures Grouped(b, keys, File(groups, loc, |locs|), if loc.bucket in groups then names else names + [loc.bucket], locs + [loc])
  {
    LocatesOne(b, keys, locs, loc);
    FileKeepsFiled(groups, locs, loc);
    FileKeepsNamed(groups, names, loc, |locs|);
  }

  lemma LocatesOne(b: Buckets, keys: seq<string>, locs: seq<Location>, loc: Location)
    requires Located(b, keys, locs) && |locs| < |keys| && Locate(b, keys[|locs|]) == Ok(loc)
    ensures Located(b, keys, locs + [loc])
  {
  }

  // ---------- Filling the slots ----------

  /** Slots of signed buckets hold their URL; the others are still unset. */
  ghost predicate FilledFor(c: Client, ttl: nat, now: int, locs: seq<Location>, signed: seq<string>, result: seq<Option<AccessUrl>>) {
    && |result| == |locs|
    && forall j :: 0 <= j < |locs| ==> if locs[j].bucket in signed then SlotHolds(c, ttl, now, locs[j], result[j]) else result[j].None?
  }

  ghost predicate SlotHolds(c: Client, ttl: nat, now: int, loc: Location, slot: Option<AccessUrl>) {
    slot.Some? && NonEmpty(SignAt(c, loc, ttl, now)) == Ok(slot.value)
  }

  /** The same with the first `n` slots of the group `entries` of bucket `b` filled too. */
  ghost predicate Filling(c: Client, ttl: nat, now: int, locs: seq<Location>, signed: seq<string>, b: string, entries: seq<Slot>, n: nat, result: seq<Option<AccessUrl>>)
    requires n <= |entries|
  {
    && |result| == |locs|
    && (forall j :: 0 <= j < |locs| && locs[j].bucket != b ==>
          if locs[j].bucket in signed then SlotHolds(c, ttl, now, locs[j], result[j]) else result[j].None?)
    && (forall k :: 0 <= k < n ==> entries[k].index < |locs| && SlotHolds(c, ttl, now, locs[entries[k].index], result[entries[k].index]))
    && (forall k :: n <= k < |entries| ==> entries[k].index < |locs| && result[entries[k].index].None?)
  }

  lemma StartsFilling(c: Client, ttl: nat, now: int, groups: map<string, seq<Slot>>, locs: seq<Location>, signed: seq<string>, b: string, result: seq<Option<AccessUrl>>)
    requires Filed(groups, locs) && b in groups && b !in signed
    requires FilledFor(c, ttl, now, locs, signed, result)
    ensures Filling(c, ttl, now, locs, signed, b, groups[b], 0, result)
  {
    assert GroupSound(b, groups[b], locs);
  }

  lemma FillsOne(c: Client, ttl: nat, now: int, groups: map<string, seq<Slot>>, locs: seq<Location>, signed: seq<string>, b: string, n: nat, result: seq<Option<AccessUrl>>, url: AccessUrl)
    requires Filed(groups, locs) && b in groups && n < |groups[b]|
    requires Filling(c, ttl, now, locs, signed, b, groups[b], n, result)
    requires NonEmpty(SignAt(c, Location(b, groups[b][n].path), ttl, now)) == Ok(url)
    ensures Filling(c, ttl, now, locs, signed, b, groups[b], n + 1, result[groups[b][n].index := Some(url)])
  {
    assert GroupSound(b, groups[b], locs);
  }

  lemma EndsFilling(c: Client, ttl: nat, now: int, groups: map<string, seq<Slot>>, locs: seq<Location>, signed: seq<string>, b: string, result: seq<Option<AccessUrl>>)
    requires Filed(groups, locs) && b in groups
    requires Filling(c, ttl, now, locs, signed, b, groups[b], |groups[b]|, result)
    ensures FilledFor(c, ttl, now, locs, signed + [b], result)
  {
    assert GroupSound(b, groups[b], locs);
    forall j | 0 <= j < |locs| && locs[j].bucket == b
      ensures SlotHolds(c, ttl, now, locs[j], result[j])
    {
      var k :| 0 <= k < |groups[b]| && groups[b][k].index == j;
    }
  }

  class SupabaseStorageProvider {
    const buckets: Buckets
    const client: Client

    constructor (buckets: Buckets, client: Client)
      ensures this.buckets == buckets && this.client == client
    {
      this.buckets, this.client := buckets, client;
    }

    method GroupByBucket(keys: seq<string>)
      returns (failure: Option<StorageError>, byBucket: map<string, seq<Slot>>, names: seq<string>, ghost locs: seq<Location>)
      ensures failure.Some? ==> exists i :: 0 <= i < |keys| && Locate(buckets, keys[i]) == Err(failure.value)
      ensures failure.None? ==> |locs| == |keys| && Located(buckets, keys, locs)
      ensures Filed(byBucket, locs) && Named(byBucket, names)
    {
      failure, byBucket, names, locs := None, map[], [], [];
      for i := 0 to |keys|
        invariant |locs| == i && Grouped(buckets, keys, byBucket, names, locs)
      {
        var located := Locate(buckets, keys[i]);
        if located.Err? {
          failure := Some(located.error);
          return;
        }
        var loc := located.value;
        GroupsOne(buckets, keys, byBucket, names, locs, loc);
        if loc.bucket !in byBucket {
          names := names + [loc.bucket];
        }
        byBucket := File(byBucket, loc, i);
        locs := locs + [loc];
      }
    }

    /** Every slot is unset when it is written: none is written twice. */
    method SignBucket(b: string, entries: seq<Slot>, ttl: nat, now: int, result: array<Option<AccessUrl>>,
                      ghost groups: map<string, seq<Slot>>, ghost locs: seq<Location>, ghost signed: seq<string>)
      returns (ok: bool)
      requires Filed(groups, locs) && b in groups && groups[b] == entries && b !in signed
      requires FilledFor(client, ttl, now, locs, signed, result[..])
      modifies result
      ensures ok ==> FilledFor(client, ttl, now, locs, signed + [b], result[..])
      ensures !ok ==> exists j :: 0 <= j < |locs| && NonEmpty(SignAt(client, locs[j], ttl, now)) == Err(SigningFailed)
    {
      StartsFilling(client, ttl, now, groups, locs, signed, b, result[..]);
      for i := 0 to |entries|
        invariant Filling(client, ttl, now, locs, signed, b, entries, i, result[..])
      {
        var reply := client.sign(b, entries[i].path, ttl);
        if reply.None? || reply.value == "" {
          assert NonEmpty(SignAt(client, locs[entries[i].index], ttl, now)) == Err(SigningFailed);
          return false;
        }
        var url := AccessUrl(reply.value, Some(now + ttl * 1000));
        assert result[..][entries[i].index].None?;
        FillsOne(client, ttl, now, groups, locs, signed, b, i, result[..], url);
        result[entries[i].index] := Some(url);
      }
      EndsFilling(client, ttl, now, groups, locs, signed, b, result[..]);
      return true;
    }

    /** One request per bucket; each reply's URL goes to the slot of the key it was asked for. */
    method SignedUrls(keys: seq<string>, ttl: nat, now: int) returns (r: Result<seq<AccessUrl>>)
      ensures SlotBySlot(r, keys, key => NonEmpty(SignedUrl(buckets, client, key, ttl, now)))
    {
      var failure, byBucket, names, locs := GroupByBucket(keys);
      if failure.Some? {
        return Err(failure.value);
      }
      var result := new Option<AccessUrl>[|keys|](_ => None);
      for n := 0 to |names|
        invariant FilledFor(client, ttl, now, locs, names[..n], result[..])
      {
        assert names[..n + 1] == names[..n] + [names[n]];
        var ok := SignBucket(names[n], byBucket[names[n]], ttl, now, result, byBucket, locs, names[..n]);
        if !ok {
          ghost var j :| 0 <= j < |locs| && NonEmpty(SignAt(client, locs[j], ttl, now)) == Err(SigningFailed);
          SignedWhere(buckets, client, keys[j], locs[j], ttl, now);
          return Err(SigningFailed);
        }
      }
      assert names[..|names|] == names;
      AllFilled(buckets, client, keys, ttl, now, locs, names, result[..]);
      r := Ok(seq(|keys|, i requires 0 <= i < |keys| && result[i].Some? reads result => result[i].value));
    }
  }

  lemma SignedWhere(b: Buckets, c: Client, key: string, loc: Location, ttl: nat, now: int)
    requires Locate(b, key) == Ok(loc)
    ensures SignedUrl(b, c, key, ttl, now) == SignAt(c, loc, ttl, now)
  {
  }

  lemma AllFilled(b: Buckets, c: Client, keys: seq<string>, ttl: nat, now: int, locs: seq<Location>, names: seq<string>, result: seq<Option<AccessUrl>>)
    requires |locs| == |keys| && Located(b, keys, locs)
    requires forall j :: 0 <= j < |locs| ==> locs[j].bucket in names
    requires FilledFor(c, ttl, now, locs, names, result)
    ensures |result| == |keys|
    ensures forall j :: 0 <= j < |keys| ==> result[j].Some? && NonEmpty(SignedUrl(b, c, keys[j], ttl, now)) == Ok(result[j].value)
  {
    forall j | 0 <= j < |keys|
      ensures result[j].Some? && NonEmpty(SignedUrl(b, c, keys[j], ttl, now)) == Ok(result[j].value)
    {
      SignedWhere(b, c, keys[j], locs[j], ttl, now);
      assert SlotHolds(c, ttl, now, locs[j], result[j]);
    }
  }

  // ---------- The service ----------

  /** A private key, and its place in the request. */
  datatype Entry = Entry(key: string, index: nat)

  /** Public slots below `n` hold their URL; private ones are unset and listed. */
  ghost predicate Scattered(b: Buckets, c: Client, keys: seq<string>, n: nat, result: seq<Option<AccessUrl>>, entries: seq<Entry>)
    requires n <= |keys|
  {
    && |result| == |keys|
    && (forall j :: 0 <= j < n ==> Scatters(b, c, keys[j], result[j], entries, j))
    && (forall k :: 0 <= k < |entries| ==>
          entries[k].index < n && keys[entries[k].index] == entries[k].key && VisibilityOf(entries[k].key) == Ok(Private))
    && (forall k, l :: 0 <= k < l < |entries| ==> entries[k].index < entries[l].index)
  }

  ghost predicate Scatters(b: Buckets, c: Client, key: string, slot: Option<AccessUrl>, entries: seq<Entry>, j: nat) {
    match VisibilityOf(key)
    case Err(_) => false
    case Ok(Public) => slot.Some? && PublicUrl(b, c, key) == Ok(slot.value)
    case Ok(Private) => slot.None? && exists k :: 0 <= k < |entries| && entries[k] == Entry(key, j)
  }

  lemma ScatterPublic(b: Buckets, c: Client, keys: seq<string>, n: nat, result: seq<Option<AccessUrl>>, entries: seq<Entry>, url: AccessUrl)
    requires n < |keys| && Scattered(b, c, keys, n, result, entries)
    requires VisibilityOf(keys[n]) == Ok(Public) && PublicUrl(b, c, keys[n]) == Ok(url)
    ensures Scattered(b, c, keys, n + 1, result[n := Some(url)], entries)
  {
    forall j | 0 <= j < n
      ensures Scatters(b, c, keys[j], result[n := Some(url)][j], entries, j)
    {
      assert Scatters(b, c, keys[j], result[j], entries, j);
    }
  }

  lemma ScatterPrivate(b: Buckets, c: Client, keys: seq<string>, n: nat, result: seq<Option<AccessUrl>>, entries: seq<Entry>)
    requires n < |keys| && Scattered(b, c, keys, n, result, entries)
    requires VisibilityOf(keys[n]) == Ok(Private) && result[n].None?
    ensures Scattered(b, c, keys, n + 1, result, entries + [Entry(keys[n], n)])
  {
    var out := entries + [Entry(keys[n], n)];
    assert out[|entries|] == Entry(keys[n], n);
    forall j | 0 <= j < n
      ensures Scatters(b, c, keys[j], result[j], out, j)
    {
      assert Scatters(b, c, keys[j], result[j], entries, j);
      if VisibilityOf(keys[j]) == Ok(Private) {
        var k :| 0 <= k < |entries| && entries[k] == Entry(keys[j], j);
        assert out[k] == Entry(keys[j], j);
      }
    }
  }

  function KeysOf(entries: seq<Entry>): seq<string> {
    seq(|entries|, k requires 0 <= k < |entries| => entries[k].key)
  }

  /** The reply to the private keys, `n` of which have been put back in place. */
  ghost predicate Gathered(entries: seq<Entry>, signed: seq<AccessUrl>, n: nat, before: seq<Option<AccessUrl>>, result: seq<Option<AccessUrl>>) {
    && |signed| == |entries| && n <= |entries| && |result| == |before|
    && (forall k :: 0 <= k < |entries| ==> entries[k].index < |result|)
    && (forall k :: 0 <= k < n ==> result[entries[k].index] == Some(signed[k]))
    && (forall j :: 0 <= j < |result| && (forall k :: 0 <= k < n ==> entries[k].index != j) ==> result[j] == before[j])
  }

  lemma GatherOne(entries: seq<Entry>, signed: seq<AccessUrl>, n: nat, before: seq<Option<AccessUrl>>, result: seq<Option<AccessUrl>>)
    requires Gathered(entries, signed, n, before, result) && n < |entries|
    requires forall k, l :: 0 <= k < l < |entries| ==> entries[k].index < entries[l].index
    ensures Gathered(entries, signed, n + 1, before, result[entries[n].index := Some(signed[n])])
  {
  }

  ghost predicate AllSigned(b: Buckets, c: Client, entries: seq<Entry>, ttl: nat, now: int, signed: seq<AccessUrl>) {
    && |signed| == |entries|
    && forall k :: 0 <= k < |entries| ==> NonEmpty(SignedUrl(b, c, KeysOf(entries)[k], ttl, now)) == Ok(signed[k])
  }

  lemma OneGathered(b: Buckets, c: Client, keys: seq<string>, ttl: nat, now: int, entries: seq<Entry>, signed: seq<AccessUrl>,
                    before: seq<Option<AccessUrl>>, result: seq<Option<AccessUrl>>, j: nat)
    requires Scattered(b, c, keys, |keys|, before, entries) && Gathered(entries, signed, |entries|, before, result)
    requires AllSigned(b, c, entries, ttl, now, signed) && j < |keys|
    ensures result[j].Some? && InBatch(b, c, keys[j], ttl, now) == Ok(result[j].value)
  {
    assert Scatters(b, c, keys[j], before[j], entries, j);
    if VisibilityOf(keys[j]) == Ok(Private) {
      var k :| 0 <= k < |entries| && entries[k] == Entry(keys[j], j);
      assert KeysOf(entries)[k] == keys[j];
    } else {
      forall k | 0 <= k < |entries|
        ensures entries[k].index != j
      {
      }
    }
  }

  lemma AllGathered(b: Buckets, c: Client, keys: seq<string>, ttl: nat, now: int, entries: seq<Entry>, signed: seq<AccessUrl>,
                    before: seq<Option<AccessUrl>>, result: seq<Option<AccessUrl>>)
    requires Scattered(b, c, keys, |keys|, before, entries) && Gathered(entries, signed, |entries|, before, result)
    requires AllSigned(b, c, entries, ttl, now, signed)
    ensures |result| == |keys| && forall j :: 0 <= j < |keys| ==> result[j].Some? && InBatch(b, c, keys[j], ttl, now) == Ok(result[j].value)
  {
    forall j | 0 <= j < |keys|
      ensures result[j].Some? && InBatch(b, c, keys[j], ttl, now) == Ok(result[j].value)
    {
      OneGathered(b, c, keys, ttl, now, entries, signed, before, result, j);
    }
  }

  class StorageService {
    const provider: SupabaseStorageProvider

    constructor (provider: SupabaseStorageProvider)
      ensures this.provider == provider
    {
      this.provider := provider;
    }

    method Scatter(keys: seq<string>, result: array<Option<AccessUrl>>, ghost ttl: nat, ghost now: int) returns (failure: Option<StorageError>, entries: seq<Entry>)
      requires result.Length == |keys| && forall j :: 0 <= j < |keys| ==> result[j].None?
      modifies result
      ensures failure.None? ==> Scattered(provider.buckets, provider.client, keys, |keys|, result[..], entries)
      ensures failure.Some? ==> exists j :: 0 <= j < |keys| && InBatch(provider.buckets, provider.client, keys[j], ttl, now) == Err(failure.value)
    {
      failure, entries := None, [];
      for i := 0 to |keys|
        invariant Scattered(provider.buckets, provider.client, keys, i, result[..], entries)
        invariant forall j :: i <= j < |keys| ==> result[j].None?
      {
        var visibility := VisibilityOf(keys[i]);
        if visibility.Err? {
          failure := Some(visibility.error);
          return;
        }
        if visibility.value == Public {
          var url := PublicUrl(provider.buckets, provider.client, keys[i]);
          if url.Err? {
            failure := Some(url.error);
            return;
          }
          ScatterPublic(provider.buckets, provider.client, keys, i, result[..], entries, url.value);
          result[i] := Some(url.value);
        } else {
          ScatterPrivate(provider.buckets, provider.client, keys, i, result[..], entries);
          entries := entries + [Entry(keys[i], i)];
        }
      }
    }

    /** Public URLs are built in place; private keys are signed together and put back by index. */
    method GetAccessUrls(keys: seq<string>, ttl: nat, now: int) returns (r: Result<seq<AccessUrl>>)
      ensures SlotBySlot(r, keys, key => InBatch(provider.buckets, provider.client, key, ttl, now))
    {
      if keys == [] {
        return Ok([]);
      }
      var result := new Option<AccessUrl>[|keys|](_ => None);
      var failure, entries := Scatter(keys, result, ttl, now);
      if failure.Some? {
        return Err(failure.value);
      }
      var signed := SignEntries(keys, entries, ttl, now);
      if signed.Err? {
        return Err(signed.error);
      }
      ghost var before := result[..];
      Gather(entries, signed.value, result);
      AllGathered(provider.buckets, provider.client, keys, ttl, now, entries, signed.value, before, result[..]);
      r := Ok(seq(|keys|, i requires 0 <= i < |keys| && result[i].Some? reads result => result[i].value));
    }

    /** No request is made when there is no private key. */
    method SignEntries(keys: seq<string>, entries: seq<Entry>, ttl: nat, now: int) returns (r: Result<seq<AccessUrl>>)
      requires forall k :: 0 <= k < |entries| ==>
                 entries[k].index < |keys| && keys[entries[k].index] == entries[k].key && VisibilityOf(entries[k].key) == Ok(Private)
      ensures r.Ok? ==> AllSigned(provider.buckets, provider.client, entries, ttl, now, r.value)
      ensures r.Err? ==> exists j :: 0 <= j < |keys| && InBatch(provider.buckets, provider.client, keys[j], ttl, now) == Err(r.error)
    {
      if |entries| == 0 {
        return Ok([]);
      }
      r := provider.SignedUrls(KeysOf(entries), ttl, now);
      if r.Err? {
        ghost var k :| 0 <= k < |entries| && NonEmpty(SignedUrl(provider.buckets, provider.client, KeysOf(entries)[k], ttl, now)) == Err(r.error);
        assert InBatch(provider.buckets, provider.client, keys[entries[k].index], ttl, now) == Err(r.error);
      }
    }

    method Gather(entries: seq<Entry>, signed: seq<AccessUrl>, result: array<Option<AccessUrl>>)
      requires |signed| == |entries| && forall k :: 0 <= k < |entries| ==> entries[k].index < result.Length
      requires forall k, l :: 0 <= k < l < |entries| ==> entries[k].index < entries[l].index
      modifies result
      ensures Gathered(entries, signed, |entries|, old(result[..]), result[..])
    {
      for i := 0 to |entries|
        invariant Gathered(entries, signed, i, old(result[..]), result[..])
      {
        GatherOne(entries, signed, i, old(result[..]), result[..]);
        result[entries[i].index] := Some(signed[i]);
      }
    }
  }

  /** A key's batch result is its single one, except that a batch refuses a signed URL that is empty. */
  lemma BatchIsSingleIff(b: Buckets, c: Client, key: string, ttl: nat, now: int)
    ensures InBatch(b, c, key, ttl, now) == GetAccessUrl(b, c, key, ttl, now)
       <==> !(VisibilityOf(key) == Ok(Private) && SignedUrl(b, c, key, ttl, now).Ok? && SignedUrl(b, c, key, ttl, now).value.url == "")
  {
  }

  /**
   * Where the service sees a public key the provider never refuses it as private: only an
   * invalid key makes a public URL fail.
   */
  lemma PublicUrlFailsOnlyIfInvalid(b: Buckets, c: Client, key: string, ttl: nat, now: int)
    requires VisibilityOf(key) == Ok(Public)
    ensures GetAccessUrl(b, c, key, ttl, now).Err? <==> SanitizeKey(key).Err?
    ensures GetAccessUrl(b, c, key, ttl, now) != Err(NotPublic)
  {
    if SanitizeKey(key).Ok? {
      VisibilitiesAgree(key);
      LocationRebuilds(key);
    }
  }

  // ---------- Which object a key is served from ----------

  /** A public key is the URL of its path in the public bucket, alone and in a batch, and does not expire. */
  lemma PublicUrlIs(b: Buckets, c: Client, s: string, ttl: nat, now: int)
    requires CleanPath(s)
    ensures GetAccessUrl(b, c, "public/" + s, ttl, now) == Ok(AccessUrl(c.publicUrl(b.publicBucket, s), None))
    ensures InBatch(b, c, "public/" + s, ttl, now) == Ok(AccessUrl(c.publicUrl(b.publicBucket, s), None))
  {
    PublicKeySpells(s);
  }

  /** A private key is what signing its path in the private bucket replies; a batch takes an empty URL for a failure. */
  lemma PrivateUrlIs(b: Buckets, c: Client, s: string, ttl: nat, now: int)
    requires CleanPath(s)
    ensures var reply := c.sign(b.privateBucket, s, ttl);
            && GetAccessUrl(b, c, "private/" + s, ttl, now) ==
                 (if reply.None? then Err(SigningFailed) else Ok(AccessUrl(reply.value, Some(now + ttl * 1000))))
            && InBatch(b, c, "private/" + s, ttl, now) ==
                 (if reply.None? || reply.value == "" then Err(SigningFailed) else Ok(AccessUrl(reply.value, Some(now + ttl * 1000))))
  {
    PrivateKeySpells(s);
  }

  /** A file uploaded into a folder is served from that folder of the bucket of its visibility. */
  lemma UploadedIsServed(b: Buckets, c: Client, folder: string, filename: string, ttl: nat, now: int)
    requires CleanPath(folder) && CleanPath(filename)
    ensures GetAccessUrl(b, c, TargetKey(Public, folder, filename), ttl, now)
         == Ok(AccessUrl(c.publicUrl(b.publicBucket, folder + "/" + filename), None))
    ensures GetAccessUrl(b, c, TargetKey(Private, folder, filename), ttl, now)
         == match c.sign(b.privateBucket, folder + "/" + filename, ttl)
            case None => Err(SigningFailed)
            case Some(url) => Ok(AccessUrl(url, Some(now + ttl * 1000)))
  {
    CleanJoins(folder, filename);
    TargetSpells(Public, folder, filename);
    TargetSpells(Private, folder, filename);
    PublicUrlIs(b, c, folder + "/" + filename, ttl, now);
    PrivateUrlIs(b, c, folder + "/" + filename, ttl, now);
  }
}
