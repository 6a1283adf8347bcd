/** The shared body preview: a prefix of the request body is read once, for all plugins of a
    route, and the body is rebuilt so that nothing of it is lost. */
module Preview {
  import opened Domain
  import opened Capture
  import opened Policy

  /** What a body still yields: frames, and possibly an error. */
  datatype Item = Whole(frame: Frame) | Broken

  /** The data of the frames before any error. */
  function DataOf(items: seq<Item>): Body {
    if items == [] || items[0].Broken? then []
    else (if items[0].frame.Data? then items[0].frame.bytes else []) + DataOf(items[1..])
  }

  /** Reading `limit` bytes of data hits no error. */
  predicate Readable(items: seq<Item>, limit: nat) {
    if limit == 0 || items == [] then true
    else if items[0].Broken? then false
    else
      var n := if items[0].frame.Data? then |items[0].frame.bytes| else 0;
      Readable(items[1..], if n <= limit then limit - n else 0)
  }

  /** Yields the frames already read, then the rest of the body. */
  class PrefixBody {
    var prefix: seq<Frame>
    var inner: seq<Item>

    ghost function Contents(): seq<Item>
      reads this
    {
      Wrap(prefix) + inner
    }

    constructor (prefix: seq<Frame>, inner: seq<Item>)
      ensures Contents() == Wrap(prefix) + inner
    {
      this.prefix, this.inner := prefix, inner;
    }

    method PollFrame() returns (polled: Option<Item>)
      modifies this
      ensures polled.None? <==> old(Contents()) == []
      ensures polled.Some? ==> [polled.value] + Contents() == old(Contents())
    {
      if prefix != [] {
        polled := Some(Whole(prefix[0]));
        WrapHead(prefix);
        prefix := prefix[1..];
      } else if inner != [] {
        polled := Some(inner[0]);
        inner := inner[1..];
      } else {
        polled := None;
      }
    }
  }

  function Wrap(frames: seq<Frame>): seq<Item> {
    if frames == [] then [] else Wrap(frames[..|frames| - 1]) + [Whole(frames[|frames| - 1])]
  }

  lemma {:induction false} WrapHead(frames: seq<Frame>)
    requires frames != []
    ensures Wrap(frames) == [Whole(frames[0])] + Wrap(frames[1..])
  {
    if |frames| > 1 {
      WrapHead(frames[..|frames| - 1]);
      assert frames[..|frames| - 1][1..] == frames[1..][..|frames[1..]| - 1];
    } else {
      assert frames[..0] == [] && frames[1..] == [];
    }
  }

  /** `read` is what the frames of `prefix` give, and `left` is still to come. */
  ghost predicate Reading(body: seq<Item>, limit: nat, read: Body, prefix: seq<Frame>, left: seq<Item>) {
    && |read| <= limit && Wrap(prefix) + left == body
    && (Readable(body, limit) <==> Readable(left, limit - |read|))
    && Take(DataOf(body), limit) == Take(read + DataOf(left), limit)
  }

  lemma ReadingStarts(body: seq<Item>, limit: nat)
    ensures Reading(body, limit, [], [], body)
  {
    assert [] + DataOf(body) == DataOf(body);
  }

  lemma ReadingGoesOn(body: seq<Item>, limit: nat, read: Body, prefix: seq<Frame>, left: seq<Item>)
    requires Reading(body, limit, read, prefix, left) && |read| < limit && left != [] && !left[0].Broken?
    ensures Reading(body, limit, ReadNext(read, left[0].frame, limit), prefix + [left[0].frame], left[1..])
  {
    ReadOne(prefix, read, left, limit);
  }

  lemma ReadingFails(body: seq<Item>, limit: nat, read: Body, prefix: seq<Frame>, left: seq<Item>)
    requires Reading(body, limit, read, prefix, left) && |read| < limit && left != [] && left[0].Broken?
    ensures !Readable(body, limit)
  {
  }

  lemma ReadingEnds(body: seq<Item>, limit: nat, read: Body, prefix: seq<Frame>, left: seq<Item>)
    requires Reading(body, limit, read, prefix, left) && (|read| == limit || left == [])
    ensures Readable(body, limit) && read == Take(DataOf(body), limit) && Wrap(prefix) + left == body
  {
    AllRead(read, left, limit);
  }

  /** Reads frames until `limit` bytes of data are in hand. The rebuilt body yields every
      item of the original, in order. */
  method SplitBodyPreview(body: seq<Item>, limit: nat) returns (preview: Option<Body>, rest: PrefixBody)
    ensures fresh(rest)
    ensures preview.Some? <==> Readable(body, limit)
    ensures preview.Some? ==> preview.value == Take(DataOf(body), limit)
    ensures preview.Some? ==> rest.Contents() == body
  {
    var read: Body := [];
    var prefix: seq<Frame> := [];
    var left := body;
    ReadingStarts(body, limit);
    while |read| < limit && left != []
      invariant Reading(body, limit, read, prefix, left)
      decreases |left|
    {
      if left[0].Broken? {
        ReadingFails(body, limit, read, prefix, left);
        rest := new PrefixBody(prefix, left);
        return None, rest;
      }
      ReadingGoesOn(body, limit, read, prefix, left);
      read, prefix, left := ReadNext(read, left[0].frame, limit), prefix + [left[0].frame], left[1..];
    }
    ReadingEnds(body, limit, read, prefix, left);
    rest := new PrefixBody(prefix, left);
    return Some(read), rest;
  }

  /** What has been read after the next frame. */
  function ReadNext(read: Body, frame: Frame, limit: nat): (more: Body)
    requires |read| <= limit
    ensures |more| <= limit
  {
    if frame.Data? then read + Take(frame.bytes, limit - |read|) else read
  }

  lemma ReadOne(prefix: seq<Frame>, read: Body, left: seq<Item>, limit: nat)
    requires |read| < limit && left != [] && !left[0].Broken?
    ensures var more := ReadNext(read, left[0].frame, limit);
      && Wrap(prefix + [left[0].frame]) + left[1..] == Wrap(prefix) + left
      && (Readable(left, limit - |read|) <==> Readable(left[1..], limit - |more|))
      && Take(read + DataOf(left), limit) == Take(more + DataOf(left[1..]), limit)
  {
    var frame := left[0].frame;
    assert (prefix + [frame])[..|prefix|] == prefix;
    assert left == [left[0]] + left[1..];
    if frame.Data? {
      TakeMore(read, frame.bytes, DataOf(left[1..]), limit);
    } else {
      assert DataOf(left) == [] + DataOf(left[1..]) == DataOf(left[1..]);
    }
  }

  lemma AllRead(read: Body, left: seq<Item>, limit: nat)
    requires |read| == limit || (|read| <= limit && left == [])
    ensures Take(read + DataOf(left), limit) == read
    ensures Readable(left, limit - |read|)
  {
    assert read + [] == read;
  }

  lemma TakeMore(read: Body, bytes: Body, later: Body, limit: nat)
    requires |read| <= limit
    ensures Take(read + (bytes + later), limit) == Take((read + Take(bytes, limit - |read|)) + later, limit)
  {
    var all := read + (bytes + later);
    if |read| + |bytes| <= limit {
      assert all == (read + bytes) + later;
    } else {
      var more := read + bytes[..limit - |read|];
      assert all[..limit] == more;
      assert (more + later)[..limit] == more;
    }
  }

  // ----- each plugin's share -----------------------------------------------------------------------

  function MaxPreview(plugins: seq<PluginConfig>): (limit: nat)
    ensures forall k :: 0 <= k < |plugins| ==> plugins[k].bodyPreviewBytes <= limit
    ensures limit > 0 ==> exists k :: 0 <= k < |plugins| && plugins[k].bodyPreviewBytes == limit
  {
    if plugins == [] then 0
    else
      var last := |plugins| - 1;
      var before := MaxPreview(plugins[..last]);
      if before <= plugins[last].bodyPreviewBytes then plugins[last].bodyPreviewBytes else before
  }

  lemma {:induction false} ReadableWithin(items: seq<Item>, own: nat, limit: nat)
    requires own <= limit && Readable(items, limit)
    ensures Readable(items, own)
  {
    if own > 0 && items != [] && !items[0].Broken? {
      var n := if items[0].frame.Data? then |items[0].frame.bytes| else 0;
      ReadableWithin(items[1..], if n <= own then own - n else 0, if n <= limit then limit - n else 0);
    }
  }

  /** The preview the handler passes on: none when no plugin of the route wants one. */
  function SharedPreview(plugins: seq<PluginConfig>, body: seq<Item>): Option<Body> {
    if MaxPreview(plugins) == 0 then None else Some(Take(DataOf(body), MaxPreview(plugins)))
  }

  /** When the shared preview succeeds every plugin sees exactly what it would have seen had
      the body been previewed for it alone, and nothing if it asked for nothing. */
  lemma PreviewAsIfAlone(plugins: seq<PluginConfig>, body: seq<Item>, k: nat)
    requires k < |plugins| && Readable(body, MaxPreview(plugins))
    ensures var own := plugins[k].bodyPreviewBytes;
      && Readable(body, own)
      && PreviewFor(SharedPreview(plugins, body), own) == if own == 0 then None else Some(Take(DataOf(body), own))
  {
    ReadableWithin(body, plugins[k].bodyPreviewBytes, MaxPreview(plugins));
    TakeTwice(DataOf(body), plugins[k].bodyPreviewBytes, MaxPreview(plugins));
  }

  lemma TakeTwice(bytes: Body, own: nat, limit: nat)
    requires own <= limit
    ensures Take(Take(bytes, limit), own) == Take(bytes, own)
  {
  }
}
