/**
 The topic directory served at `/`: the discovered topics are split into image
 topics and camera-info topics, every camera-info topic named `<base>camera_info`
 whose name ends in `/camera_info` opens a group under `<base>`, and each group
 claims, in order, every still-unclaimed image topic that starts with its base.
 A claimed topic is removed from the working list, so the first base that
 matches it wins; an image topic that no base matches is never shown.

 `Pair` and `Leftover` are the functional reference for the pairing, `Render`
 and `Page` give the sequence of chunks written to the connection, and the
 method `ListStreams` is the imperative scan with erase-as-you-go, proved to
 write exactly `Page(Pair(...))`.
 */
module Directory {
  import opened Seqs
  import opened Text

  /** One topic as reported by the bus: its name and its declared message type. */
  datatype TopicInfo = TopicInfo(name: string, dataType: string)

  const ImageType: string := "sensor_msgs/Image"
  const CameraInfoType: string := "sensor_msgs/CameraInfo"

  /** Only camera-info topics whose name ends in this open a group. */
  const CameraInfoSuffix: string := "/camera_info"
  /** What is cut off a camera-info topic's name to obtain its base. */
  const CameraInfoLeaf: string := "camera_info"

  // ---------------------------------------------------------------------------
  // Splitting the discovered topics by message type
  // ---------------------------------------------------------------------------

  /** Names of the image topics, in discovery order. */
  function ImageTopics(ts: seq<TopicInfo>): (r: seq<string>)
    ensures |r| <= |ts|
  {
    if ts == [] then []
    else (if ts[0].dataType == ImageType then [ts[0].name] else []) + ImageTopics(ts[1..])
  }

  /** Names of the camera-info topics (those of a type other than image), in discovery order. */
  function CameraInfoTopics(ts: seq<TopicInfo>): (r: seq<string>)
    ensures |r| <= |ts|
  {
    if ts == [] then []
    else
      (if ts[0].dataType != ImageType && ts[0].dataType == CameraInfoType then [ts[0].name] else [])
      + CameraInfoTopics(ts[1..])
  }

  /**
   A name is in the image list iff some discovered topic of the image type has
   it, and in the camera-info list iff some topic that is not of the image type
   but of the camera-info type has it.
   */
  lemma {:induction false} PartitionMembership(ts: seq<TopicInfo>)
    ensures forall n :: n in ImageTopics(ts) <==>
      exists t :: t in ts && t.dataType == ImageType && t.name == n
    ensures forall n :: n in CameraInfoTopics(ts) <==>
      exists t :: t in ts && t.dataType != ImageType && t.dataType == CameraInfoType && t.name == n
  {
    if ts != [] {
      PartitionMembership(ts[1..]);
      assert ts == [ts[0]] + ts[1..];
    }
  }

  /** A topic is listed when it is of one of the two types; every other topic is dropped. */
  predicate Listed(t: TopicInfo) {
    t.dataType == ImageType || t.dataType == CameraInfoType
  }

  /**
   Discovery order is kept: the split of a concatenation is the concatenation
   of the splits.
   */
  lemma {:induction false} PartitionAppend(a: seq<TopicInfo>, b: seq<TopicInfo>)
    ensures ImageTopics(a + b) == ImageTopics(a) + ImageTopics(b)
    ensures CameraInfoTopics(a + b) == CameraInfoTopics(a) + CameraInfoTopics(b)
  {
    if a == [] {
      assert a + b == b;
    } else {
      assert (a + b)[0] == a[0];
      assert (a + b)[1..] == a[1..] + b;
      PartitionAppend(a[1..], b);
      assert ImageTopics(a + b) == (if a[0].dataType == ImageType then [a[0].name] else []) + ImageTopics(a[1..] + b);
    }
  }

  /** Every listed topic goes to exactly one of the two lists; no other topic goes to either. */
  lemma {:induction false} PartitionCount(ts: seq<TopicInfo>)
    ensures |ImageTopics(ts)| + |CameraInfoTopics(ts)| == |Filter(Listed, ts)|
  {
    if ts != [] {
      PartitionCount(ts[1..]);
    }
  }

  // ---------------------------------------------------------------------------
  // Pairing camera-info bases with image topics
  // ---------------------------------------------------------------------------

  /** The base of a camera-info topic: its name without the trailing `camera_info`. */
  function StripLeaf(info: string): (base: string)
    requires EndsWith(info, CameraInfoSuffix)
    ensures base + CameraInfoLeaf == info
    ensures EndsWith(base, "/")
  {
    var base := info[..|info| - |CameraInfoLeaf|];
    assert info == base + info[|base|..];
    assert info[|base|..] == CameraInfoLeaf;
    assert base[|base| - 1] == info[|info| - |CameraInfoSuffix|];
    base
  }

  /** The claim test of a base: does the image topic start with it? */
  function Prefixed(base: string): string -> bool {
    t => StartsWith(t, base)
  }

  /** One line of the directory: a camera base with the image topics it claimed, or a
      camera-info topic whose name fails the suffix test. */
  datatype Entry = Group(base: string, members: seq<string>) | Unpaired(name: string)

  /** Every topic of `ts` starts with `base`. */
  predicate AllStartWith(ts: seq<string>, base: string) {
    forall k :: 0 <= k < |ts| ==> StartsWith(ts[k], base)
  }

  /** Every member of a group starts with the group's base. */
  predicate WellFormed(e: Entry) {
    e.Group? ==> AllStartWith(e.members, e.base)
  }

  /** Every line of a directory is well formed. */
  predicate AllWellFormed(es: seq<Entry>) {
    forall i :: 0 <= i < |es| ==> WellFormed(es[i])
  }

  /** Every topic claimed under a base starts with it. */
  lemma ClaimedStartWith(base: string, images: seq<string>)
    ensures AllStartWith(Filter(Prefixed(base), images), base)
  {
    var claimed := Filter(Prefixed(base), images);
    FilterMembership(Prefixed(base), images);
    forall k | 0 <= k < |claimed|
      ensures StartsWith(claimed[k], base)
    {
      assert claimed[k] in claimed;
      assert Prefixed(base)(claimed[k]);
    }
  }

  /**
   The directory built from the camera-info topics `infos` (in order) and the
   working list of image topics `images`; each group takes the image topics
   that start with its base and leaves the rest, in order, to later groups.
   */
  function Pair(infos: seq<string>, images: seq<string>): (r: seq<Entry>)
    ensures |r| == |infos|
    ensures AllWellFormed(r)
    decreases |infos|
  {
    if infos == [] then []
    else if EndsWith(infos[0], CameraInfoSuffix) then
      var base := StripLeaf(infos[0]);
      var rest := Pair(infos[1..], Reject(Prefixed(base), images));
      ClaimedStartWith(base, images);
      [Group(base, Filter(Prefixed(base), images))] + rest
    else
      [Unpaired(infos[0])] + Pair(infos[1..], images)
  }

  /**
   One directory line per camera-info topic, in order: exactly those whose name
   ends in `/camera_info` open a group, whose base followed by `camera_info`
   gives back the topic's name and ends in `/`; every group member is one of
   the image topics.
   */
  lemma PairShape(infos: seq<string>, images: seq<string>)
    ensures var r := Pair(infos, images);
      && (forall i :: 0 <= i < |r| ==> (r[i].Group? <==> EndsWith(infos[i], CameraInfoSuffix)))
      && (forall i :: 0 <= i < |r| && r[i].Group? ==>
            r[i].base + CameraInfoLeaf == infos[i] && EndsWith(r[i].base, "/"))
      && (forall i :: 0 <= i < |r| && r[i].Unpaired? ==> r[i].name == infos[i])
      && (forall i, t :: 0 <= i < |r| && r[i].Group? && t in r[i].members ==> t in images)
  {
    PairLines(infos, images);
    PairDrawsFromImages(infos, images);
  }

  /** Line `i` of the directory is determined by camera-info topic `i` alone. */
  lemma {:induction false} PairLines(infos: seq<string>, images: seq<string>)
    ensures var r := Pair(infos, images);
      && (forall i :: 0 <= i < |r| ==> (r[i].Group? <==> EndsWith(infos[i], CameraInfoSuffix)))
      && (forall i :: 0 <= i < |r| && r[i].Group? ==> r[i].base == StripLeaf(infos[i]))
      && (forall i :: 0 <= i < |r| && r[i].Unpaired? ==> r[i].name == infos[i])
    decreases |infos|
  {
    var r := Pair(infos, images);
    if infos != [] {
      PairHead(infos, images);
      var images' := if EndsWith(infos[0], CameraInfoSuffix) then Reject(Prefixed(StripLeaf(infos[0])), images) else images;
      var rest := Pair(infos[1..], images');
      assert r[1..] == rest;
      PairLines(infos[1..], images');
      forall i | 1 <= i < |r|
        ensures r[i] == rest[i - 1] && infos[i] == infos[1..][i - 1]
      {
      }
    }
  }

  /** Every group member is one of the image topics the pairing started from. */
  lemma {:induction false} PairDrawsFromImages(infos: seq<string>, images: seq<string>)
    ensures var r := Pair(infos, images);
      forall i, t :: 0 <= i < |r| && r[i].Group? && t in r[i].members ==> t in images
    decreases |infos|
  {
    var r := Pair(infos, images);
    if infos != [] {
      PairHead(infos, images);
      if EndsWith(infos[0], CameraInfoSuffix) {
        var base := StripLeaf(infos[0]);
        FilterMembership(Prefixed(base), images);
        PairDrawsFromImages(infos[1..], Reject(Prefixed(base), images));
        assert r[1..] == Pair(infos[1..], Reject(Prefixed(base), images));
      } else {
        PairDrawsFromImages(infos[1..], images);
        assert r[1..] == Pair(infos[1..], images);
      }
      forall i, t | 1 <= i < |r| && r[i].Group? && t in r[i].members
        ensures t in images
      {
        assert r[i] == r[1..][i - 1];
      }
    }
  }

  /** The image topics no group claimed, in their original order. */
  function Leftover(infos: seq<string>, images: seq<string>): (r: seq<string>)
    decreases |infos|
  {
    if infos == [] then images
    else if EndsWith(infos[0], CameraInfoSuffix) then
      Leftover(infos[1..], Reject(Prefixed(StripLeaf(infos[0])), images))
    else
      Leftover(infos[1..], images)
  }

  /** The bases of the groups, in directory order. */
  function Bases(es: seq<Entry>): (r: seq<string>)
    ensures forall b :: b in r <==> exists i :: 0 <= i < |es| && es[i].Group? && es[i].base == b
  {
    if es == [] then []
    else
      var rest := Bases(es[1..]);
      assert forall i :: 1 <= i < |es| ==> es[i] == es[1..][i - 1];
      (if es[0].Group? then [es[0].base] else []) + rest
  }

  /** All image topics shown, group after group. */
  function Members(es: seq<Entry>): seq<string> {
    if es == [] then []
    else (if es[0].Group? then es[0].members else []) + Members(es[1..])
  }

  /** No base of `bases` claims `t`. */
  function MatchesNone(bases: seq<string>): string -> bool {
    t => forall b :: b in bases ==> !StartsWith(t, b)
  }

  /** The image topics no base of `bases` claims, in order. */
  function Survivors(bases: seq<string>, images: seq<string>): seq<string> {
    Filter(MatchesNone(bases), images)
  }

  /** Survivors of a base followed by more bases are survivors of the longer list. */
  lemma SurvivorsCons(b: string, bs: seq<string>, images: seq<string>)
    ensures Survivors(bs, Reject(Prefixed(b), images)) == Survivors([b] + bs, images)
  {
    var p := MatchesNone(bs);
    var q := Prefixed(b);
    var r := MatchesNone([b] + bs);
    forall x
      ensures r(x) == (p(x) && !q(x))
    {
      assert forall c :: c in [b] + bs <==> c == b || c in bs;
    }
    FilterOfReject(p, q, r, images);
  }

  lemma BasesCons(e: Entry, es: seq<Entry>)
    ensures Bases([e] + es) == (if e.Group? then [e.base] else []) + Bases(es)
  {
    assert ([e] + es)[1..] == es;
  }

  lemma MembersCons(e: Entry, es: seq<Entry>)
    ensures Members([e] + es) == (if e.Group? then e.members else []) + Members(es)
  {
    assert ([e] + es)[1..] == es;
  }

  /**
   First match wins, as a closed form: group `i` holds exactly those image
   topics, in their original order, that start with its base and with no base
   of an earlier group.
   */
  lemma {:induction false} PairMembers(infos: seq<string>, images: seq<string>, i: int)
    requires 0 <= i < |infos| && Pair(infos, images)[i].Group?
    ensures var r := Pair(infos, images);
      r[i].members == Filter(Prefixed(r[i].base), Survivors(Bases(r[..i]), images))
    decreases |infos|
  {
    var r := Pair(infos, images);
    var e: Entry, images';
    if EndsWith(infos[0], CameraInfoSuffix) {
      var base := StripLeaf(infos[0]);
      e, images' := Group(base, Filter(Prefixed(base), images)), Reject(Prefixed(base), images);
    } else {
      e, images' := Unpaired(infos[0]), images;
    }
    var rest := Pair(infos[1..], images');
    assert r == [e] + rest;
    if i == 0 {
      assert Bases(r[..0]) == [];
      FilterAll(MatchesNone([]), images);
    } else {
      assert r[i] == rest[i - 1];
      PairMembers(infos[1..], images', i - 1);
      PairMembersStep(e, rest, images, images', i);
    }
  }

  /** The inductive step of `PairMembers`, for a group after the first entry. */
  lemma PairMembersStep(e: Entry, rest: seq<Entry>, images: seq<string>, images': seq<string>, i: int)
    requires e.Group? ==> images' == Reject(Prefixed(e.base), images)
    requires e.Unpaired? ==> images' == images
    requires 1 <= i <= |rest| && rest[i - 1].Group?
    requires rest[i - 1].members == Filter(Prefixed(rest[i - 1].base), Survivors(Bases(rest[..i - 1]), images'))
    ensures var r := [e] + rest;
      r[i].members == Filter(Prefixed(r[i].base), Survivors(Bases(r[..i]), images))
  {
    var r := [e] + rest;
    assert r[..i] == [e] + rest[..i - 1];
    var bs := Bases(rest[..i - 1]);
    BasesCons(e, rest[..i - 1]);
    assert r[i] == rest[i - 1];
    if e.Group? {
      SurvivorsCons(e.base, bs, images);
      assert Bases(r[..i]) == [e.base] + bs;
      assert Survivors(Bases(r[..i]), images) == Survivors(bs, images');
    } else {
      assert Bases(r[..i]) == bs;
    }
  }

  /** What no group claimed is what no base matches. */
  lemma {:induction false} LeftoverSurvivors(infos: seq<string>, images: seq<string>)
    ensures Leftover(infos, images) == Survivors(Bases(Pair(infos, images)), images)
    decreases |infos|
  {
    if infos == [] {
      FilterAll(MatchesNone([]), images);
    } else if EndsWith(infos[0], CameraInfoSuffix) {
      var base := StripLeaf(infos[0]);
      var images' := Reject(Prefixed(base), images);
      var rest := Pair(infos[1..], images');
      LeftoverSurvivors(infos[1..], images');
      BasesCons(Group(base, Filter(Prefixed(base), images)), rest);
      SurvivorsCons(base, Bases(rest), images);
    } else {
      var rest := Pair(infos[1..], images);
      LeftoverSurvivors(infos[1..], images);
      assert Pair(infos, images) == [Unpaired(infos[0])] + rest;
      BasesCons(Unpaired(infos[0]), rest);
      assert Bases(Pair(infos, images)) == Bases(rest);
      assert Leftover(infos, images) == Leftover(infos[1..], images);
    }
  }

  /**
   Claiming removes: every image topic is shown at most once (exactly as often
   as it was discovered, across all groups, or else left over), so at most
   `|images|` items are rendered.
   */
  lemma {:induction false} PairConserves(infos: seq<string>, images: seq<string>)
    ensures multiset(Members(Pair(infos, images))) + multiset(Leftover(infos, images)) == multiset(images)
    ensures |Members(Pair(infos, images))| <= |images|
    decreases |infos|
  {
    var r := Pair(infos, images);
    if infos != [] {
      var e := r[0];
      var images' := if e.Group? then Reject(Prefixed(e.base), images) else images;
      assert r == [e] + Pair(infos[1..], images');
      PairConserves(infos[1..], images');
      MembersCons(e, Pair(infos[1..], images'));
      if e.Group? {
        FilterRejectSplit(Prefixed(e.base), images);
      }
    }
  }

  /**
   An image topic is shown exactly when some group's base is a prefix of it;
   image topics that match no base are never rendered.
   */
  lemma ShownIffMatched(infos: seq<string>, images: seq<string>, t: string)
    requires t in images
    ensures var r := Pair(infos, images);
      t in Members(r) <==> exists b :: b in Bases(r) && StartsWith(t, b)
  {
    var r := Pair(infos, images);
    PairConserves(infos, images);
    LeftoverSurvivors(infos, images);
    assert t in multiset(images);
    if t in Members(r) {
      MembersMatched(r, t);
    } else {
      var left := Leftover(infos, images);
      assert t in multiset(left);
      assert t in left;
      FilterMembership(MatchesNone(Bases(r)), images);
      assert MatchesNone(Bases(r))(t);
    }
  }

  /** A shown topic sits in some group whose base it starts with. */
  lemma {:induction false} MembersMatched(es: seq<Entry>, t: string)
    requires AllWellFormed(es)
    requires t in Members(es)
    ensures exists b :: b in Bases(es) && StartsWith(t, b)
  {
    assert es == [es[0]] + es[1..];
    MembersCons(es[0], es[1..]);
    BasesCons(es[0], es[1..]);
    if es[0].Group? && t in es[0].members {
      assert WellFormed(es[0]);
      assert es[0].base in Bases(es);
    } else {
      MembersMatched(es[1..], t);
    }
  }

  /**
   First match wins: a topic shown in group `i` starts with that group's base
   and with the base of no earlier group.
   */
  lemma FirstMatchWins(infos: seq<string>, images: seq<string>, i: int, j: int, t: string)
    requires var r := Pair(infos, images);
      0 <= j < i < |r| && r[i].Group? && r[j].Group? && t in r[i].members
    ensures var r := Pair(infos, images);
      StartsWith(t, r[i].base) && !StartsWith(t, r[j].base)
  {
    var r := Pair(infos, images);
    PairMembers(infos, images, i);
    assert r[..i][j] == r[j];
    assert r[j].base in Bases(r[..i]);
    var survivors := Survivors(Bases(r[..i]), images);
    FilterMembership(Prefixed(r[i].base), survivors);
    FilterMembership(MatchesNone(Bases(r[..i])), images);
    assert t in survivors;
  }

  /**
   Two cameras and a stray image topic: `/cam1/` claims its raw image,
   `/cam2/` claims both of its topics, `/other/image_raw` is left over, and a
   camera-info topic named `/sensor/info` opens no group.
   */
  lemma PairExample(infos: seq<string>, images: seq<string>)
    requires infos == ["/cam1/camera_info", "/cam2/camera_info", "/sensor/info"]
    requires images == ["/cam1/image_raw", "/cam2/image_raw", "/cam2/image_raw/compressed", "/other/image_raw"]
    ensures Pair(infos, images) == [Group("/cam1/", images[..1]), Group("/cam2/", images[1..3]), Unpaired(infos[2])]
    ensures Leftover(infos, images) == images[3..]
  {
    ExampleHead(infos, images);
    ExampleTail(infos[1..], images[1..]);
    assert images[1..][..2] == images[1..3] && images[1..][2..] == images[3..];
    assert infos[1..][1] == infos[2];
  }

  /** The example's first camera-info topic: `/cam1/` claims the first image topic. */
  lemma ExampleHead(infos: seq<string>, images: seq<string>)
    requires infos == ["/cam1/camera_info", "/cam2/camera_info", "/sensor/info"]
    requires images == ["/cam1/image_raw", "/cam2/image_raw", "/cam2/image_raw/compressed", "/other/image_raw"]
    ensures Pair(infos, images) == [Group("/cam1/", images[..1])] + Pair(infos[1..], images[1..])
    ensures Leftover(infos, images) == Leftover(infos[1..], images[1..])
  {
    ExampleBases();
    ExampleClaims1(images);
    PairHead(infos, images);
  }

  /** The example after `/cam1/` has claimed its topic. */
  lemma ExampleTail(infos: seq<string>, images: seq<string>)
    requires infos == ["/cam2/camera_info", "/sensor/info"]
    requires images == ["/cam2/image_raw", "/cam2/image_raw/compressed", "/other/image_raw"]
    ensures Pair(infos, images) == [Group("/cam2/", images[..2]), Unpaired(infos[1])]
    ensures Leftover(infos, images) == images[2..]
  {
    ExampleBases();
    ExampleClaims2(images);
    ExampleLast(infos[1..], images[2..]);
  }

  /** The example's last camera-info topic, which fails the suffix test. */
  lemma ExampleLast(infos: seq<string>, images: seq<string>)
    requires infos == ["/sensor/info"]
    ensures Pair(infos, images) == [Unpaired(infos[0])]
    ensures Leftover(infos, images) == images
  {
    ExampleBases();
    assert infos[1..] == [];
  }

  lemma ExampleBases()
    ensures EndsWith("/cam1/camera_info", CameraInfoSuffix) && EndsWith("/cam2/camera_info", CameraInfoSuffix)
    ensures StripLeaf("/cam1/camera_info") == "/cam1/"
    ensures StripLeaf("/cam2/camera_info") == "/cam2/"
    ensures !EndsWith("/sensor/info", CameraInfoSuffix)
  {
    var info := "/sensor/info";
    assert info[|info| - 12..][1] != CameraInfoSuffix[1];
  }

  /** `/cam1/` claims only the first topic of the example. */
  lemma ExampleClaims1(images: seq<string>)
    requires images == ["/cam1/image_raw", "/cam2/image_raw", "/cam2/image_raw/compressed", "/other/image_raw"]
    ensures Filter(Prefixed("/cam1/"), images) == images[..1]
    ensures Reject(Prefixed("/cam1/"), images) == images[1..]
  {
    var q := Prefixed("/cam1/");
    assert q(images[0]);
    assert images[1][..6][4] != "/cam1/"[4];
    assert images[2][..6][4] != "/cam1/"[4];
    assert images[3][..6][1] != "/cam1/"[1];
    RejectAll(q, images[1..]);
  }

  /** `/cam2/` claims the first two of the topics `/cam1/` left. */
  lemma ExampleClaims2(images: seq<string>)
    requires images == ["/cam2/image_raw", "/cam2/image_raw/compressed", "/other/image_raw"]
    ensures Filter(Prefixed("/cam2/"), images) == images[..2]
    ensures Reject(Prefixed("/cam2/"), images) == images[2..]
  {
    var q := Prefixed("/cam2/");
    assert q(images[0]) && q(images[1]);
    assert images[2][..6][1] != "/cam2/"[1];
    assert images[1..][1..] == images[2..];
    RejectAll(q, images[2..]);
  }

  // ---------------------------------------------------------------------------
  // Rendering
  // ---------------------------------------------------------------------------

  const PageHead: string :=
    "<html><head><title>ROS Image Topic List</title></head><body><h1>Available ROS Image Topics:</h1>"
  const PageTail: string := "</ul></body></html>"

  /** The chunks written for one claimed image topic: a viewer link labelled with the
      topic's name relative to the base, then a snapshot link. */
  function ItemWrites(base: string, t: string): (w: seq<string>)
    requires StartsWith(t, base)
  {
    ["<li><a href=\"/stream_viewer?topic=", t, "\">", t[|base|..], "</a> (",
     "<a href=\"/snapshot?topic=", t, "\">Snapshot</a>)", "</li>"]
  }

  /**
   The label is the topic's remainder after the base, so the base followed by
   the label gives back the full topic, which both links carry.
   */
  lemma ItemLinks(base: string, t: string)
    requires StartsWith(t, base)
    ensures var w := ItemWrites(base, t);
      |w| == 9 && base + w[3] == t && w[1] == t && w[6] == t
  {
    StartsWithSplit(t, base);
  }

  function RenderItems(base: string, ts: seq<string>): (w: seq<string>)
    requires AllStartWith(ts, base)
    ensures |w| == 9 * |ts|
  {
    if ts == [] then []
    else ItemWrites(base, ts[0]) + RenderItems(base, ts[1..])
  }

  lemma {:induction false} RenderItemsAppend(base: string, a: seq<string>, t: string)
    requires AllStartWith(a, base)
    requires StartsWith(t, base)
    ensures RenderItems(base, a + [t]) == RenderItems(base, a) + ItemWrites(base, t)
  {
    if a == [] {
      assert a + [t] == [t];
    } else {
      assert (a + [t])[1..] == a[1..] + [t];
      RenderItemsAppend(base, a[1..], t);
    }
  }

  /**
   The chunks written for one directory line. A group opens an item with its
   base and a nested list of its members; a camera-info topic that fails the
   suffix test still closes an item it never opened.
   */
  function RenderEntry(e: Entry): (w: seq<string>)
    requires WellFormed(e)
    ensures e.Unpaired? ==> w == ["</li>"]
    ensures e.Group? ==>
      (|w| == 5 + 9 * |e.members| && w[..3] == ["<li>", e.base, "<ul>"] && w[|w| - 2..] == ["</ul>", "</li>"])
  {
    match e
    case Group(base, members) => ["<li>", base, "<ul>"] + RenderItems(base, members) + ["</ul>", "</li>"]
    case Unpaired(_) => ["</li>"]
  }

  function Render(es: seq<Entry>): seq<string>
    requires AllWellFormed(es)
  {
    if es == [] then [] else RenderEntry(es[0]) + Render(es[1..])
  }

  lemma {:induction false} RenderAppend(es: seq<Entry>, e: Entry)
    requires AllWellFormed(es)
    requires WellFormed(e)
    ensures Render(es + [e]) == Render(es) + RenderEntry(e)
  {
    if es == [] {
      assert es + [e] == [e];
    } else {
      assert (es + [e])[1..] == es[1..] + [e];
      RenderAppend(es[1..], e);
    }
  }

  /** The whole response body, chunk by chunk. */
  function Page(es: seq<Entry>): seq<string>
    requires AllWellFormed(es)
  {
    [PageHead, "<ul>"] + Render(es) + [PageTail]
  }

  /** The body served at `/` for the discovered topics. */
  function DirectoryPage(topics: seq<TopicInfo>): seq<string> {
    Page(Pair(CameraInfoTopics(topics), ImageTopics(topics)))
  }

  // ---------------------------------------------------------------------------
  // The scan as the server performs it
  // ---------------------------------------------------------------------------

  /** Extending the scanned part of the working list by one topic. */
  lemma ClaimStep(base: string, images: seq<string>, p: int)
    requires 0 <= p < |images|
    ensures var q := Prefixed(base);
      var t := images[p];
      && Filter(q, images[..p + 1]) == Filter(q, images[..p]) + (if StartsWith(t, base) then [t] else [])
      && Reject(q, images[..p + 1]) == Reject(q, images[..p]) + (if StartsWith(t, base) then [] else [t])
  {
    var q := Prefixed(base);
    var t := images[p];
    assert images[..p + 1] == images[..p] + [t];
    FilterAppend(q, images[..p], [t]);
    RejectAppend(q, images[..p], [t]);
    assert [t][1..] == [];
    assert q(t) == StartsWith(t, base);
  }

  /**
   The state of the scan in `ClaimUnder` after it has looked at the first `p`
   topics of the original list: the cursor `k` sits just past the topics it
   stepped over, which are followed by the topics not yet looked at, and
   `items` renders the topics claimed so far.
   */
  predicate Scanned(base: string, images: seq<string>, p: int, remaining: seq<string>, k: int, items: seq<string>) {
    && 0 <= p <= |images|
    && remaining == Reject(Prefixed(base), images[..p]) + images[p..]
    && k == |Reject(Prefixed(base), images[..p])|
    && AllStartWith(Filter(Prefixed(base), images[..p]), base)
    && items == RenderItems(base, Filter(Prefixed(base), images[..p]))
  }

  lemma ScanStart(base: string, images: seq<string>)
    ensures Scanned(base, images, 0, images, 0, [])
  {
    assert images[..0] == [];
    assert images[0..] == images;
  }

  /** One iteration of the scan: the topic at the cursor is the next one not yet
      looked at, and claiming or stepping over it keeps the scan's state. */
  lemma ClaimAdvance(base: string, images: seq<string>, p: int, remaining: seq<string>, k: int, items: seq<string>)
    requires Scanned(base, images, p, remaining, k, items)
    requires k < |remaining|
    ensures p < |images| && remaining[k] == images[p]
    ensures StartsWith(images[p], base) ==>
      Scanned(base, images, p + 1, remaining[..k] + remaining[k + 1..], k, items + ItemWrites(base, images[p]))
    ensures !StartsWith(images[p], base) ==>
      Scanned(base, images, p + 1, remaining, k + 1, items)
  {
    var claimed := Filter(Prefixed(base), images[..p]);
    var kept := Reject(Prefixed(base), images[..p]);
    assert remaining[k] == images[p];
    ClaimStep(base, images, p);
    ClaimedStartWith(base, images[..p + 1]);
    if StartsWith(images[p], base) {
      assert remaining[..k] == kept;
      assert remaining[k + 1..] == images[p + 1..];
      RenderItemsAppend(base, claimed, images[p]);
      assert Filter(Prefixed(base), images[..p + 1]) == claimed + [images[p]];
    } else {
      assert images[p..] == [images[p]] + images[p + 1..];
      assert remaining == (kept + [images[p]]) + images[p + 1..];
      assert Filter(Prefixed(base), images[..p + 1]) == claimed;
    }
  }

  /** A scan whose cursor has reached the end of the working list has looked at every topic. */
  lemma ScanDone(base: string, images: seq<string>, p: int, remaining: seq<string>, k: int, items: seq<string>)
    requires Scanned(base, images, p, remaining, k, items)
    requires k >= |remaining|
    ensures remaining == Reject(Prefixed(base), images)
    ensures AllStartWith(Filter(Prefixed(base), images), base)
    ensures items == RenderItems(base, Filter(Prefixed(base), images))
  {
    assert images[..p] == images;
  }

  /**
   One pass over the working list of image topics for one base: each topic that
   starts with the base is written out and erased, the others are stepped over.
   */
  method ClaimUnder(base: string, images: seq<string>) returns (items: seq<string>, remaining: seq<string>)
    ensures remaining == Reject(Prefixed(base), images)
    ensures AllStartWith(Filter(Prefixed(base), images), base)
    ensures items == RenderItems(base, Filter(Prefixed(base), images))
  {
    remaining := images;
    items := [];
    var k := 0;
    ghost var p := 0;
    ScanStart(base, images);
    while k < |remaining|
      invariant Scanned(base, images, p, remaining, k, items)
      decreases |remaining| - k
    {
      ClaimAdvance(base, images, p, remaining, k, items);
      if StartsWith(remaining[k], base) {
        items := items + ItemWrites(base, remaining[k]);
        remaining := remaining[..k] + remaining[k + 1..];
      } else {
        k := k + 1;
      }
      p := p + 1;
    }
    ScanDone(base, images, p, remaining, k, items);
  }

  lemma PartitionStep(ts: seq<TopicInfo>, n: int)
    requires 0 <= n < |ts|
    ensures ImageTopics(ts[..n + 1]) ==
      ImageTopics(ts[..n]) + (if ts[n].dataType == ImageType then [ts[n].name] else [])
    ensures CameraInfoTopics(ts[..n + 1]) ==
      CameraInfoTopics(ts[..n]) + (if ts[n].dataType != ImageType && ts[n].dataType == CameraInfoType then [ts[n].name] else [])
  {
    assert ts[..n + 1] == ts[..n] + [ts[n]];
    PartitionAppend(ts[..n], [ts[n]]);
  }

  /** The first loop of the directory handler: split the discovered topics by type. */
  method SplitTopics(topics: seq<TopicInfo>) returns (imageTopics: seq<string>, cameraInfoTopics: seq<string>)
    ensures imageTopics == ImageTopics(topics)
    ensures cameraInfoTopics == CameraInfoTopics(topics)
  {
    imageTopics, cameraInfoTopics := [], [];
    var n := 0;
    while n < |topics|
      invariant 0 <= n <= |topics|
      invariant imageTopics == ImageTopics(topics[..n])
      invariant cameraInfoTopics == CameraInfoTopics(topics[..n])
    {
      var topic := topics[n];
      PartitionStep(topics, n);
      if topic.dataType == ImageType {
        imageTopics := imageTopics + [topic.name];
      } else if topic.dataType == CameraInfoType {
        cameraInfoTopics := cameraInfoTopics + [topic.name];
      }
      n := n + 1;
    }
    assert topics[..n] == topics;
  }

  /** The directory line of the first camera-info topic, and the working list it leaves. */
  lemma PairHead(infos: seq<string>, images: seq<string>)
    requires infos != []
    ensures EndsWith(infos[0], CameraInfoSuffix) ==>
      var base := StripLeaf(infos[0]);
      Pair(infos, images) == [Group(base, Filter(Prefixed(base), images))] + Pair(infos[1..], Reject(Prefixed(base), images))
    ensures !EndsWith(infos[0], CameraInfoSuffix) ==>
      Pair(infos, images) == [Unpaired(infos[0])] + Pair(infos[1..], images)
    ensures EndsWith(infos[0], CameraInfoSuffix) ==>
      Leftover(infos, images) == Leftover(infos[1..], Reject(Prefixed(StripLeaf(infos[0])), images))
    ensures !EndsWith(infos[0], CameraInfoSuffix) ==> Leftover(infos, images) == Leftover(infos[1..], images)
  {
  }

  /** The body of the second loop for one camera-info topic. */
  method WriteEntry(cameraInfoTopic: string, imageTopics: seq<string>)
    returns (chunk: seq<string>, remaining: seq<string>, e: Entry)
    ensures WellFormed(e) && chunk == RenderEntry(e)
    ensures EndsWith(cameraInfoTopic, CameraInfoSuffix) ==>
      var base := StripLeaf(cameraInfoTopic);
      e == Group(base, Filter(Prefixed(base), imageTopics)) && remaining == Reject(Prefixed(base), imageTopics)
    ensures !EndsWith(cameraInfoTopic, CameraInfoSuffix) ==>
      e == Unpaired(cameraInfoTopic) && remaining == imageTopics
  {
    if EndsWith(cameraInfoTopic, CameraInfoSuffix) {
      var baseTopic := cameraInfoTopic[..|cameraInfoTopic| - |CameraInfoLeaf|];
      var items;
      items, remaining := ClaimUnder(baseTopic, imageTopics);
      e := Group(baseTopic, Filter(Prefixed(baseTopic), imageTopics));
      chunk := ["<li>", baseTopic, "<ul>"] + items + ["</ul>"] + ["</li>"];
    } else {
      e := Unpaired(cameraInfoTopic);
      chunk := ["</li>"];
      remaining := imageTopics;
    }
  }

  /** One step of the second loop, on the pairing still to be done. */
  lemma PairAdvance(infos: seq<string>, i: int, images: seq<string>, remaining: seq<string>, e: Entry)
    requires 0 <= i < |infos|
    requires EndsWith(infos[i], CameraInfoSuffix) ==>
      var base := StripLeaf(infos[i]);
      e == Group(base, Filter(Prefixed(base), images)) && remaining == Reject(Prefixed(base), images)
    requires !EndsWith(infos[i], CameraInfoSuffix) ==> e == Unpaired(infos[i]) && remaining == images
    ensures Pair(infos[i..], images) == [e] + Pair(infos[i + 1..], remaining)
  {
    var rest := infos[i..];
    assert rest[0] == infos[i] && rest[1..] == infos[i + 1..];
    PairHead(rest, images);
  }

  /** How one line written by `WriteEntry` extends the directory rendered so far. */
  lemma WriteDirectoryStep(infos: seq<string>, images: seq<string>, i: int,
                           imageTopics: seq<string>, remaining: seq<string>, e: Entry)
    requires 0 <= i < |infos|
    requires Pair(infos, images)[i..] == Pair(infos[i..], imageTopics)
    requires EndsWith(infos[i], CameraInfoSuffix) ==>
      var base := StripLeaf(infos[i]);
      e == Group(base, Filter(Prefixed(base), imageTopics)) && remaining == Reject(Prefixed(base), imageTopics)
    requires !EndsWith(infos[i], CameraInfoSuffix) ==> e == Unpaired(infos[i]) && remaining == imageTopics
    ensures Pair(infos, images)[i + 1..] == Pair(infos[i + 1..], remaining)
    ensures WellFormed(e)
    ensures ([PageHead, "<ul>"] + Render(Pair(infos, images)[..i])) + RenderEntry(e)
         == [PageHead, "<ul>"] + Render(Pair(infos, images)[..i + 1])
  {
    var full := Pair(infos, images);
    PairAdvance(infos, i, imageTopics, remaining, e);
    assert full[i] == e && full[i + 1..] == full[i..][1..];
    assert full[..i + 1] == full[..i] + [e];
    RenderAppend(full[..i], e);
  }

  /** The second loop of the directory handler: one line per camera-info topic. */
  method WriteDirectory(cameraInfoTopics: seq<string>, images: seq<string>) returns (writes: seq<string>)
    ensures writes == Page(Pair(cameraInfoTopics, images))
  {
    ghost var full := Pair(cameraInfoTopics, images);
    var imageTopics := images;
    writes := [PageHead, "<ul>"];
    var i := 0;
    while i < |cameraInfoTopics|
      invariant 0 <= i <= |cameraInfoTopics|
      invariant full[i..] == Pair(cameraInfoTopics[i..], imageTopics)
      invariant writes == [PageHead, "<ul>"] + Render(full[..i])
    {
      var chunk, remaining, e := WriteEntry(cameraInfoTopics[i], imageTopics);
      WriteDirectoryStep(cameraInfoTopics, images, i, imageTopics, remaining, e);
      writes := writes + chunk;
      imageTopics := remaining;
      i := i + 1;
    }
    assert full[..i] == full;
    writes := writes + [PageTail];
  }

  /** The directory body as the server writes it: split the topics, then scan with erase. */
  method ListStreams(topics: seq<TopicInfo>) returns (writes: seq<string>)
    ensures writes == DirectoryPage(topics)
  {
    var imageTopics, cameraInfoTopics := SplitTopics(topics);
    writes := WriteDirectory(cameraInfoTopics, imageTopics);
  }
}
