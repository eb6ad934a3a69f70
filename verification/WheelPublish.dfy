/**
 Publishing the runner wheel: upload the wheel, then a marker with its digest. Whatever
 uploads fail on the way, a marker that matches a wheel means the volume holds that wheel,
 as long as a filename always names the same bytes.
 */
module WheelPublish {
  import opened Text

  type Byte = b: int | 0 <= b < 256
  type Bytes = seq<Byte>

  /** A wheel file; the name is given by its encoded bytes. */
  datatype Wheel = Wheel(name: Bytes, contents: Bytes)

  const SIZE_LIMIT: nat := 0x100_0000_0000_0000

  /** No file system has other wheels: no NUL in a name, fewer than 2^56 bytes. */
  predicate Possible(w: Wheel) {
    0 !in w.name && |w.contents| < SIZE_LIMIT
  }

  // ----- what is fed to the digest -----

  /** `size.to_bytes(k, "big")` */
  function BigEndian(size: nat, k: nat): (r: Bytes)
    ensures |r| == k
  {
    if k == 0 then [] else BigEndian(size / 256, k - 1) + [size % 256]
  }

  function Stream(w: Wheel): Bytes {
    w.name + BigEndian(|w.contents|, 8) + w.contents
  }

  const CHUNK: nat := 0x1_0000

  /** `compute_wheel_hash`, up to the hash itself: the bytes fed to it. */
  method DigestInput(w: Wheel) returns (fed: Bytes)
    ensures fed == Stream(w)
  {
    fed := w.name;
    fed := fed + BigEndian(|w.contents|, 8);
    var read := 0;
    while read < |w.contents|
      invariant 0 <= read <= |w.contents|
      invariant fed == w.name + BigEndian(|w.contents|, 8) + w.contents[..read]
    {
      var end := if read + CHUNK <= |w.contents| then read + CHUNK else |w.contents|;
      var chunk := w.contents[read..end];
      assert w.contents[..end] == w.contents[..read] + chunk;
      fed := fed + chunk;
      read := end;
    }
    assert w.contents[..|w.contents|] == w.contents;
  }

  /** The first of eight size bytes is zero for every possible size. */
  lemma SizeStartsWithZero(size: nat)
    requires size < SIZE_LIMIT
    ensures BigEndian(size, 8)[0] == 0
  {
    assert Power(1) == 0x100 && Power(2) == 0x1_0000 && Power(3) == 0x100_0000 && Power(4) == 0x1_0000_0000;
    assert Power(5) == 0x100_0000_0000 && Power(6) == 0x1_0000_0000_0000 && Power(7) == SIZE_LIMIT;
    FirstByte(size, 8, SIZE_LIMIT);
  }

  lemma {:induction false} FirstByte(size: nat, k: nat, limit: nat)
    requires k > 0 && size < limit && limit == Power(k - 1)
    ensures BigEndian(size, k)[0] == 0
    decreases k
  {
    if k > 1 {
      FirstByte(size / 256, k - 1, Power(k - 2));
    }
  }

  function Power(k: nat): nat {
    if k == 0 then 1 else 256 * Power(k - 1)
  }

  lemma NoZeroInName(w: Wheel)
    requires Possible(w)
    ensures |Stream(w)| > |w.name| && forall k :: 0 <= k < |w.name| ==> Stream(w)[k] != 0
  {
    forall k | 0 <= k < |w.name|
      ensures Stream(w)[k] != 0
    {
      assert Stream(w)[k] == w.name[k] && w.name[k] in w.name;
    }
  }

  lemma NameNotShorter(v: Wheel, w: Wheel)
    requires Possible(v) && Possible(w) && Stream(v) == Stream(w)
    ensures |v.name| >= |w.name|
  {
    NameEndsAtZero(v);
    NoZeroInName(w);
  }

  /** Different wheels never feed the same bytes: name, size and contents can be told apart. */
  lemma StreamIsInjective(v: Wheel, w: Wheel)
    requires Possible(v) && Possible(w) && Stream(v) == Stream(w)
    ensures v == w
  {
    NameNotShorter(v, w);
    NameNotShorter(w, v);
    assert v.name == Stream(v)[..|v.name|] && w.name == Stream(w)[..|w.name|];
    assert v.contents == Stream(v)[|v.name| + 8..] && w.contents == Stream(w)[|w.name| + 8..];
  }

  lemma NameEndsAtZero(w: Wheel)
    requires Possible(w)
    ensures |Stream(w)| >= |w.name| + 8 && Stream(w)[|w.name|] == 0
  {
    SizeStartsWithZero(|w.contents|);
    assert Stream(w)[|w.name|] == BigEndian(|w.contents|, 8)[0];
  }

  // ----- startups -----

  /** The digest is taken to be injective, so it is its input. */
  type Digest = Bytes

  /** The volume: wheels by name, and the marker file. */
  datatype Volume = Volume(files: map<Bytes, Bytes>, marker: Option<Digest>)

  datatype Upload = Ok | FailedNoEffect | FailedApplied | FailedTorn(left: Bytes)

  /** One start of the app and how its calls to the volume go. An empty `expected` is unset. */
  datatype Startup = Startup(enabled: bool, wheel: Option<Wheel>, expected: Bytes,
                             markerReadable: bool, wheelUpload: Upload, markerUpload: Upload)

  function Uploaded(old_: Option<Bytes>, new_: Bytes, u: Upload): Option<Bytes> {
    match u
    case Ok => Some(new_)
    case FailedNoEffect => old_
    case FailedApplied => Some(new_)
    case FailedTorn(left) => Some(left)
  }

  function WithFile(vol: Volume, w: Wheel, u: Upload): Volume {
    match Uploaded(None, w.contents, u)
    case Some(bytes) => vol.(files := vol.files[w.name := bytes])
    case None => vol
  }

  predicate Drifted(s: Startup) {
    s.expected != [] && s.wheel.Some? && s.wheel.value.name != s.expected
  }

  /** The volume after a startup, and the published name. */
  function Publish(vol: Volume, s: Startup): (Volume, Option<Bytes>) {
    if !s.enabled || s.wheel.None? || Drifted(s) then (vol, None)
    else
      var w := s.wheel.value;
      if s.markerReadable && vol.marker == Some(Stream(w)) then (vol, Some(w.name))
      else
        var sent := WithFile(vol, w, s.wheelUpload);
        if !s.wheelUpload.Ok? then (sent, None)
        else
          var marked := sent.(marker := Uploaded(vol.marker, Stream(w), s.markerUpload));
          (marked, if s.markerUpload.Ok? then Some(w.name) else None)
  }

  function Run(vol: Volume, startups: seq<Startup>): Volume
    decreases |startups|
  {
    if startups == [] then vol else Run(Publish(vol, startups[0]).0, startups[1..])
  }

  /** The volume as the app sees it. */
  class WheelsVolume {
    var files: map<Bytes, Bytes>
    var marker: Option<Digest>

    ghost function Contents(): Volume
      reads this
    {
      Volume(files, marker)
    }

    constructor ()
      ensures Contents() == Volume(map[], None)
    {
      files := map[];
      marker := None;
    }

    /** `publish_runner_wheel` */
    method PublishRunnerWheel(s: Startup) returns (published: Option<Bytes>)
      modifies this
      ensures (Contents(), published) == Publish(old(Contents()), s)
    {
      if !s.enabled || s.wheel.None? {
        return None;
      }
      var wheel := s.wheel.value;
      if s.expected != [] && wheel.name != s.expected {
        return None;
      }
      var localHash := DigestInput(wheel);
      var remoteHash := if s.markerReadable then marker else None;
      if remoteHash == Some(localHash) {
        return Some(wheel.name);
      }
      match s.wheelUpload {
        case FailedNoEffect =>
        case FailedTorn(left) => files := files[wheel.name := left];
        case _ => files := files[wheel.name := wheel.contents];
      }
      if !s.wheelUpload.Ok? {
        return None;
      }
      marker := Uploaded(marker, localHash, s.markerUpload);
      return if s.markerUpload.Ok? then Some(wheel.name) else None;
    }
  }

  // ----- one startup -----

  /** The job can install the wheel: no filename is expected, or the wheel has it. */
  predicate Installable(s: Startup) {
    s.wheel.Some? ==> s.expected in {[], s.wheel.value.name}
  }

  /** The marker was read and already names the wheel. */
  predicate AlreadyMarked(vol: Volume, s: Startup) {
    s.markerReadable && s.wheel.Some? && vol.marker == Some(Stream(s.wheel.value))
  }

  /** A startup reports its wheel exactly when it is enabled, has a wheel the job can install, and
      finds it marked or gets both uploads through. */
  lemma ReportsIff(vol: Volume, s: Startup)
    ensures var published := Publish(vol, s).1;
            && (published.Some? <==> s.enabled && s.wheel.Some? && Installable(s)
                                     && (AlreadyMarked(vol, s) || (s.wheelUpload.Ok? && s.markerUpload.Ok?)))
            && (published.Some? ==> published.value == s.wheel.value.name)
  {
  }

  /** A startup that reports, and did not find its wheel marked, leaves wheel and marker behind. */
  lemma ReportedIsUploaded(vol: Volume, s: Startup)
    requires Publish(vol, s).1.Some? && !AlreadyMarked(vol, s)
    ensures var w := s.wheel.value;
            Publish(vol, s).0 == Volume(vol.files[w.name := w.contents], Some(Stream(w)))
  {
  }

  /** No startup touches a file of another name; one that is disabled, has no wheel, cannot install
      it or finds it marked touches nothing; the marker moves only after the wheel is uploaded. */
  lemma TouchesOnlyOwn(vol: Volume, s: Startup)
    ensures var t := Publish(vol, s).0;
            && (!s.enabled || s.wheel.None? || !Installable(s) || AlreadyMarked(vol, s) ==> t == vol)
            && (s.wheel.Some? ==> t.files - {s.wheel.value.name} == vol.files - {s.wheel.value.name})
            && (t.marker != vol.marker ==>
                  s.wheelUpload.Ok? && t.files == vol.files[s.wheel.value.name := s.wheel.value.contents])
  {
  }

  // ----- the marker is honest -----

  /** The volume holds `w`. */
  predicate Holds(vol: Volume, w: Wheel) {
    w.name in vol.files && vol.files[w.name] == w.contents
  }

  /** A startup with one of these wheels; a torn marker is the digest of no wheel. */
  ghost predicate Obeys(s: Startup, wheels: set<Wheel>) {
    && (s.wheel.Some? ==> s.wheel.value in wheels)
    && TornMarkerIsNoDigest(s)
  }

  /** The startup could not read the marker, and tears the very wheel it names. */
  predicate TearsMarked(vol: Volume, s: Startup) {
    && s.enabled && s.wheel.Some? && Installable(s) && !s.markerReadable
    && vol.marker == Some(Stream(s.wheel.value))
    && s.wheelUpload.FailedTorn? && s.wheelUpload.left != s.wheel.value.contents
  }

  /** No startup of the run tears the wheel the marker names at that moment. */
  predicate NeverTearsMarked(vol: Volume, startups: seq<Startup>)
    decreases |startups|
  {
    startups != [] ==>
      !TearsMarked(vol, startups[0]) && NeverTearsMarked(Publish(vol, startups[0]).0, startups[1..])
  }

  ghost predicate TornMarkerIsNoDigest(s: Startup) {
    s.markerUpload.FailedTorn? ==> forall w :: Possible(w) ==> s.markerUpload.left != Stream(w)
  }

  ghost predicate AllObey(startups: seq<Startup>, wheels: set<Wheel>) {
    forall s <- startups :: Obeys(s, wheels)
  }

  /** A marker equal to a wheel's digest names one of these wheels, and the volume holds it. */
  ghost predicate Honest(vol: Volume, wheels: set<Wheel>) {
    forall w :: Possible(w) && vol.marker == Some(Stream(w)) ==> w in wheels && Holds(vol, w)
  }

  /** A filename always names the same bytes. */
  predicate NamesDistinct(wheels: set<Wheel>) {
    forall v <- wheels, w <- wheels :: v.name == w.name ==> v == w
  }

  predicate AllPossible(wheels: set<Wheel>) {
    forall w <- wheels :: Possible(w)
  }

  /** One startup keeps the marker honest exactly when it does not tear the wheel it names. */
  lemma PublishHonestIff(vol: Volume, s: Startup, wheels: set<Wheel>)
    requires Honest(vol, wheels) && Obeys(s, wheels) && NamesDistinct(wheels) && AllPossible(wheels)
    ensures Honest(Publish(vol, s).0, wheels) <==> !TearsMarked(vol, s)
  {
    if TearsMarked(vol, s) {
      var w := s.wheel.value;
      assert Possible(w) && Publish(vol, s).0.marker == Some(Stream(w)) && !Holds(Publish(vol, s).0, w);
    } else {
      PublishKeepsHonest(vol, s, wheels);
    }
  }

  lemma PublishKeepsHonest(vol: Volume, s: Startup, wheels: set<Wheel>)
    requires Honest(vol, wheels) && Obeys(s, wheels) && NamesDistinct(wheels) && AllPossible(wheels)
    requires !TearsMarked(vol, s)
    ensures Honest(Publish(vol, s).0, wheels)
  {
    hide Stream, Possible;
    var t := Publish(vol, s).0;
    forall w | Possible(w) && t.marker == Some(Stream(w))
      ensures w in wheels && Holds(t, w)
    {
      if t != vol {
        var v := s.wheel.value;
        if t.marker != vol.marker {
          StreamIsInjective(v, w);
        }
      }
    }
  }

  lemma {:induction false} RunKeepsHonest(vol: Volume, startups: seq<Startup>, wheels: set<Wheel>)
    requires Honest(vol, wheels) && AllObey(startups, wheels) && NamesDistinct(wheels) && AllPossible(wheels)
    requires NeverTearsMarked(vol, startups)
    ensures Honest(Run(vol, startups), wheels)
    decreases |startups|
  {
    hide Honest, Obeys, TearsMarked;
    if startups != [] {
      assert Obeys(startups[0], wheels);
      PublishKeepsHonest(vol, startups[0], wheels);
      RunKeepsHonest(Publish(vol, startups[0]).0, startups[1..], wheels);
    }
  }

  const EMPTY_VOLUME: Volume := Volume(map[], None)

  /** After every sequence of startups, however their uploads failed: a marker equal to the
      digest of a wheel means the volume holds that wheel under its name. */
  lemma MarkerMeansPublished(startups: seq<Startup>, wheels: set<Wheel>, w: Wheel)
    requires AllObey(startups, wheels) && NamesDistinct(wheels) && AllPossible(wheels) && Possible(w)
    requires NeverTearsMarked(EMPTY_VOLUME, startups)
    ensures var vol := Run(EMPTY_VOLUME, startups);
            vol.marker == Some(Stream(w)) ==> Holds(vol, w)
  {
    RunKeepsHonest(EMPTY_VOLUME, startups, wheels);
  }

  /** A startup that reports a published wheel leaves the volume holding it, uploaded now or
      found there. */
  lemma ReportedIsHeld(startups: seq<Startup>, last: Startup, wheels: set<Wheel>)
    requires AllObey(startups, wheels) && Obeys(last, wheels) && NamesDistinct(wheels) && AllPossible(wheels)
    requires NeverTearsMarked(EMPTY_VOLUME, startups)
    ensures var (vol, published) := Publish(Run(EMPTY_VOLUME, startups), last);
            published.Some? ==>
              last.wheel.Some? && published.value == last.wheel.value.name && Holds(vol, last.wheel.value)
  {
    if last.wheel.Some? {
      MarkerMeansPublished(startups, wheels, last.wheel.value);
    }
  }

  /** Once both uploads went through, the next start with the same wheel changes nothing,
      whatever its own uploads would do. */
  lemma NextStartIsNoOp(vol: Volume, first: Startup, next: Startup)
    requires first.enabled && first.wheel.Some? && Installable(first) && first.wheelUpload.Ok? && first.markerUpload.Ok?
    requires next.enabled && next.wheel == first.wheel && next.expected == first.expected && next.markerReadable
    ensures var t := Publish(vol, first).0; Publish(t, next) == (t, Some(first.wheel.value.name))
  {
  }

  // ----- what can reach the volume -----

  /** Some startup could install `w` and was given it. */
  predicate Deployed(startups: seq<Startup>, w: Wheel) {
    exists s <- startups :: s.enabled && s.wheel == Some(w) && Installable(s)
  }

  predicate DeployedName(startups: seq<Startup>, name: Bytes) {
    exists s <- startups :: s.enabled && s.wheel.Some? && s.wheel.value.name == name && Installable(s)
  }

  ghost predicate OnlyDeployed(vol: Volume, startups: seq<Startup>) {
    && (forall n <- vol.files :: DeployedName(startups, n))
    && (forall w :: Possible(w) && vol.marker == Some(Stream(w)) ==> Deployed(startups, w))
  }

  lemma PublishKeepsDeployed(vol: Volume, done: seq<Startup>, s: Startup)
    requires OnlyDeployed(vol, done) && (s.wheel.Some? ==> Possible(s.wheel.value)) && TornMarkerIsNoDigest(s)
    ensures OnlyDeployed(Publish(vol, s).0, done + [s])
  {
    hide Stream, Possible;
    var t, all := Publish(vol, s).0, done + [s];
    assert forall x :: x in all <==> x in done || x == s;
    forall n <- t.files
      ensures DeployedName(all, n)
    {
      if n in vol.files {
        assert DeployedName(done, n);
      } else {
        assert s in all;
      }
    }
    forall w | Possible(w) && t.marker == Some(Stream(w))
      ensures Deployed(all, w)
    {
      if t.marker == vol.marker {
        assert Deployed(done, w);
      } else {
        StreamIsInjective(s.wheel.value, w);
        assert s in all;
      }
    }
  }

  lemma {:induction false} RunKeepsDeployed(vol: Volume, done: seq<Startup>, startups: seq<Startup>)
    requires OnlyDeployed(vol, done)
    requires forall s <- startups :: (s.wheel.Some? ==> Possible(s.wheel.value)) && TornMarkerIsNoDigest(s)
    ensures OnlyDeployed(Run(vol, startups), done + startups)
    decreases |startups|
  {
    hide OnlyDeployed, Possible, TornMarkerIsNoDigest;
    if startups == [] {
      assert done + startups == done;
    } else {
      assert startups[0] in startups;
      PublishKeepsDeployed(vol, done, startups[0]);
      RunKeepsDeployed(Publish(vol, startups[0]).0, done + [startups[0]], startups[1..]);
      assert done + [startups[0]] + startups[1..] == done + startups;
    }
  }

  /** Over every sequence of startups a wheel the job could not install never reaches the volume:
      each file there, and any wheel the marker names, was given to a startup without drift. */
  lemma DriftNeverPublished(startups: seq<Startup>, w: Wheel)
    requires forall s <- startups :: (s.wheel.Some? ==> Possible(s.wheel.value)) && TornMarkerIsNoDigest(s)
    requires Possible(w)
    ensures var vol := Run(EMPTY_VOLUME, startups);
            && (forall n <- vol.files :: DeployedName(startups, n))
            && (vol.marker == Some(Stream(w)) ==> Deployed(startups, w))
  {
    RunKeepsDeployed(EMPTY_VOLUME, [], startups);
    assert [] + startups == startups;
  }

  // ----- what the guarantee needs -----

  function Deploy(w: Wheel, markerUpload: Upload): Startup {
    Startup(true, Some(w), [], true, Ok, markerUpload)
  }

  lemma RunTwo(vol: Volume, a: Startup, b: Startup)
    ensures Run(vol, [a, b]) == Publish(Publish(vol, a).0, b).0
  {
    var v := Publish(vol, a).0;
    assert [a, b][1..] == [b] && [b][1..] == [];
    assert Run(v, [b]) == Run(Publish(v, b).0, []);
  }

  /** Any two wheels of one name: after the second one's marker upload failed, the marker names
      the first, which was overwritten. */
  lemma ReusedNameBreaksMarker(v: Wheel, w: Wheel)
    requires Possible(v) && Possible(w) && v.name == w.name && v != w
    ensures var vol := Run(EMPTY_VOLUME, [Deploy(v, Ok), Deploy(w, FailedNoEffect)]);
            vol.marker == Some(Stream(v)) && !Holds(vol, v)
  {
    if Stream(v) == Stream(w) {
      StreamIsInjective(v, w);
    }
    RunTwo(EMPTY_VOLUME, Deploy(v, Ok), Deploy(w, FailedNoEffect));
  }

  /** Any wheel torn while the marker could not be read: the marker still names it. */
  lemma UnreadableTearBreaksMarker(w: Wheel, left: Bytes)
    requires left != w.contents
    ensures var torn := Deploy(w, Ok).(markerReadable := false, wheelUpload := FailedTorn(left));
            var vol := Run(EMPTY_VOLUME, [Deploy(w, Ok), torn]);
            vol.marker == Some(Stream(w)) && !Holds(vol, w)
  {
    RunTwo(EMPTY_VOLUME, Deploy(w, Ok), Deploy(w, Ok).(markerReadable := false, wheelUpload := FailedTorn(left)));
  }

  /** A run in which every torn wheel upload comes after the marker was read tears no marked wheel. */
  lemma {:induction false} ReadTearsAreSpared(vol: Volume, startups: seq<Startup>)
    requires forall s <- startups :: s.wheelUpload.FailedTorn? ==> s.markerReadable
    ensures NeverTearsMarked(vol, startups)
    decreases |startups|
  {
    if startups != [] {
      ReadTearsAreSpared(Publish(vol, startups[0]).0, startups[1..]);
    }
  }

  /** The marker is honest after every sequence of startups with these wheels that tears no marked
      wheel, exactly when no two of the wheels share a name. */
  lemma MarkerHonestIff(wheels: set<Wheel>)
    requires AllPossible(wheels)
    ensures (forall startups: seq<Startup> :: AllObey(startups, wheels) && NeverTearsMarked(EMPTY_VOLUME, startups) ==>
               Honest(Run(EMPTY_VOLUME, startups), wheels))
            <==> NamesDistinct(wheels)
  {
    if NamesDistinct(wheels) {
      forall startups: seq<Startup> | AllObey(startups, wheels) && NeverTearsMarked(EMPTY_VOLUME, startups)
        ensures Honest(Run(EMPTY_VOLUME, startups), wheels)
      {
        RunKeepsHonest(EMPTY_VOLUME, startups, wheels);
      }
    } else {
      var v, w :| v in wheels && w in wheels && v.name == w.name && v != w;
      var startups := [Deploy(v, Ok), Deploy(w, FailedNoEffect)];
      ReadTearsAreSpared(EMPTY_VOLUME, startups);
      ReusedNameBreaksMarker(v, w);
      assert AllObey(startups, wheels);
    }
  }
}
