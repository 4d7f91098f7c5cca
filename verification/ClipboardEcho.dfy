/** Echo suppression of the clipboard watcher in system mode: every device polls its clipboard and
    publishes changed text; text applied from a remote clip is tagged so that the poll ignores it
    (crates/airpaste-agent/src/lib.rs: `poll_clipboard`, the text branch of `handle_server_event`). */
module ClipboardEcho {
  import opened Wrappers

  // ---------- one device ----------

  /** `lastSeen` belongs to the polling loop, `tag` (`last_local_write`) is shared with the code
      that applies remote clips. */
  datatype Watch = Watch(lastSeen: Option<string>, tag: Option<string>)

  predicate Fresh(w: Watch, text: Option<string>) {
    text.Some? && text.value != "" && text != w.lastSeen
  }

  predicate Ignored(w: Watch, text: string) {
    w.tag == Some(text)
  }

  function Decided(w: Watch, text: string): Watch {
    Watch(Some(text), if Ignored(w, text) then None else w.tag)
  }

  class ClipboardWatcher {
    var lastSeen: Option<string>
    var lastLocalWrite: Option<string>

    /** What the clipboard held at the start is not news; if it could not be read, it will be. */
    constructor (atStart: Option<string>)
      ensures State() == Watch(atStart, None)
    {
      lastSeen := atStart;
      lastLocalWrite := None;
    }

    function State(): Watch
      reads this
    {
      Watch(lastSeen, lastLocalWrite)
    }

    /** One iteration of the loop that no remote clip interrupts: the text to publish, if any. */
    method Poll(text: Option<string>, skipped: bool) returns (publish: Option<string>)
      modifies this
      ensures publish.Some? <==> Fresh(old(State()), text) && !Ignored(old(State()), text.value) && !skipped
      ensures publish.Some? ==> publish == text
      ensures State() == if Fresh(old(State()), text) then Decided(old(State()), text.value) else old(State())
    {
      publish := None;
      if text.None? || text.value == "" || text == lastSeen {
        return;
      }
      var ignored := false;
      if lastLocalWrite == text {
        lastLocalWrite := None;
        ignored := true;
      }
      lastSeen := text;
      if ignored || skipped {
        return;
      }
      publish := text;
    }

    method TagApplied(text: string)
      modifies this
      ensures State() == old(State()).(tag := Some(text))
    {
      lastLocalWrite := Some(text);
    }
  }

  // ---------- all devices ----------

  /** Where a text came from: the user's n-th local copy, the k-th published clip, or, for a clip, an
      explicit send. */
  datatype Origin = Copied(n: nat) | Applied(k: nat) | Sent

  datatype Content = Content(text: string, origin: Origin)

  /** `reading` is what the poll read and has not decided about yet; `untagged` is a text that was put
      on the clipboard from a remote clip and is not in the tag yet. */
  datatype Device = Device(clipboard: Option<Content>, watch: Watch, reading: Option<Content>, untagged: Option<string>)

  const IDLE := Device(None, Watch(None, None), None, None)

  datatype Clip = Clip(source: nat, text: string, origin: Origin)

  datatype Copy = Copy(device: nat, text: string)

  datatype Net = Net(devices: map<nat, Device>, clips: seq<Clip>, copies: seq<Copy>)

  /** A device's poll and its apply task interleave freely. `goes` says that the text passes the publish
      policy and the server takes the clip. A clip may be applied anywhere but at its source, any number
      of times, and users may send any text explicitly. */
  datatype Event =
    | UserCopies(dev: nat, text: string)
    | PollReads(dev: nat)
    | PollDecides(dev: nat, goes: bool)
    | ApplyWrites(dev: nat, clip: nat)
    | ApplyTags(dev: nat, text: string)
    | UserSends(dev: nat, text: string)

  predicate Enabled(s: Net, e: Event) {
    && e.dev in s.devices
    && var d := s.devices[e.dev];
    && (e.PollReads? ==> d.reading.None?)
    && (e.PollDecides? ==> d.reading.Some?)
    && (e.ApplyWrites? ==> d.untagged.None? && e.clip < |s.clips| && s.clips[e.clip].source != e.dev)
    && (e.ApplyTags? ==> d.untagged == Some(e.text))
  }

  function Text(c: Option<Content>): Option<string> {
    if c.None? then None else Some(c.value.text)
  }

  function Publishes(d: Device, e: Event): bool {
    e.PollDecides? && e.goes && d.reading.Some? && !Ignored(d.watch, d.reading.value.text)
  }

  function NextDevice(s: Net, e: Event): Device
    requires Enabled(s, e)
  {
    var d := s.devices[e.dev];
    match e
    case UserCopies(_, text) => d.(clipboard := Some(Content(text, Copied(|s.copies|))))
    case PollReads(_) => if Fresh(d.watch, Text(d.clipboard)) then d.(reading := d.clipboard) else d
    case PollDecides(_, _) => d.(watch := Decided(d.watch, d.reading.value.text), reading := None)
    case ApplyWrites(_, k) => d.(clipboard := Some(Content(s.clips[k].text, Applied(k))),
                                 untagged := Some(s.clips[k].text))
    case ApplyTags(_, text) => d.(watch := d.watch.(tag := Some(text)), untagged := None)
    case UserSends(_, _) => d
  }

  function NewClips(s: Net, e: Event): seq<Clip>
    requires Enabled(s, e)
  {
    var d := s.devices[e.dev];
    if e.UserSends? then [Clip(e.dev, e.text, Sent)]
    else if Publishes(d, e) then [Clip(e.dev, d.reading.value.text, d.reading.value.origin)]
    else []
  }

  function Next(s: Net, e: Event): Net
    requires Enabled(s, e)
  {
    Net(
      s.devices[e.dev := NextDevice(s, e)],
      s.clips + NewClips(s, e),
      if e.UserCopies? then s.copies + [Copy(e.dev, e.text)] else s.copies)
  }

  /** At the start nothing is published; what clipboards hold counts as copied by their users. */
  ghost predicate Init(s: Net) {
    && s.clips == []
    && forall i :: i in s.devices ==>
         && var d := s.devices[i];
         && d.watch.tag == None && d.reading == None && d.untagged == None
         && (d.clipboard.Some? ==> CopyOk(d.clipboard.value, i, s.copies) && d.clipboard.value.origin.Copied?)
  }

  function Run(s: Net, es: seq<Event>): Option<Net>
    decreases |es|
  {
    if es == [] then Some(s)
    else if !Enabled(s, es[0]) then None
    else Run(Next(s, es[0]), es[1..])
  }

  // ---------- what every run keeps ----------

  /** A text said to be copied is that copy's text, copied on that device. */
  ghost predicate CopyOk(c: Content, dev: nat, copies: seq<Copy>) {
    c.origin.Copied? ==> c.origin.n < |copies| && copies[c.origin.n] == Copy(dev, c.text)
  }

  ghost predicate Spent(n: nat, clips: seq<Clip>) {
    exists k :: 0 <= k < |clips| && clips[k].origin == Copied(n)
  }

  /** A copy that was published stays behind in `lastSeen` while the clipboard holds it. */
  ghost predicate DeviceOk(d: Device, dev: nat, clips: seq<Clip>, copies: seq<Copy>) {
    && (d.clipboard.Some? ==> CopyOk(d.clipboard.value, dev, copies))
    && (d.reading.Some? ==> CopyOk(d.reading.value, dev, copies) && d.reading.value.origin != Sent)
    && (d.clipboard.Some? ==> d.clipboard.value.origin != Sent)
    && (d.clipboard.Some? && d.clipboard.value.origin.Copied? && Spent(d.clipboard.value.origin.n, clips) ==>
          d.watch.lastSeen == Some(d.clipboard.value.text) && d.reading.None?)
    && (d.reading.Some? && d.reading.value.origin.Copied? ==> !Spent(d.reading.value.origin.n, clips))
    && (d.reading.Some? ==> d.watch.lastSeen != Some(d.reading.value.text))
  }

  /** Remote text on the clipboard was seen, or is in the tag, or is about to be. */
  ghost predicate RemoteOk(d: Device) {
    d.clipboard.Some? && d.clipboard.value.origin.Applied? ==>
      && (d.untagged.Some? ==> d.untagged == Some(d.clipboard.value.text))
      && (|| Ignored(d.watch, d.clipboard.value.text)
          || d.untagged == Some(d.clipboard.value.text)
          || (d.watch.lastSeen == Some(d.clipboard.value.text) && d.reading.None?))
  }

  ghost predicate ClipsOk(s: Net) {
    && (forall k :: 0 <= k < |s.clips| ==>
          CopyOk(Content(s.clips[k].text, s.clips[k].origin), s.clips[k].source, s.copies))
    && (forall j, k :: 0 <= j < k < |s.clips| && s.clips[j].origin.Copied? ==> s.clips[j].origin != s.clips[k].origin)
  }

  ghost predicate Inv(s: Net) {
    && ClipsOk(s)
    && forall i :: i in s.devices ==> DeviceOk(s.devices[i], i, s.clips, s.copies) && RemoteOk(s.devices[i])
  }

  lemma InitInv(s: Net)
    requires Init(s)
    ensures Inv(s)
  {
  }

  lemma SpentGrows(n: nat, clips: seq<Clip>, more: seq<Clip>)
    requires |more| <= 1
    ensures Spent(n, clips + more) <==> Spent(n, clips) || (more != [] && more[0].origin == Copied(n))
  {
    if Spent(n, clips) {
      var k :| 0 <= k < |clips| && clips[k].origin == Copied(n);
      assert (clips + more)[k].origin == Copied(n);
    }
    if more != [] && more[0].origin == Copied(n) {
      assert (clips + more)[|clips|].origin == Copied(n);
    }
  }

  /** A device that the event does not concern: no copy of its own is published by another device. */
  lemma OthersOk(s: Net, e: Event, i: nat)
    requires Inv(s) && Enabled(s, e) && i in s.devices && i != e.dev
    ensures DeviceOk(Next(s, e).devices[i], i, Next(s, e).clips, Next(s, e).copies)
  {
    var d, own := s.devices[i], s.devices[e.dev];
    var more := NewClips(s, e);
    assert DeviceOk(d, i, s.clips, s.copies) && DeviceOk(own, e.dev, s.clips, s.copies);
    if d.clipboard.Some? && d.clipboard.value.origin.Copied? {
      SpentGrows(d.clipboard.value.origin.n, s.clips, more);
    }
    if d.reading.Some? && d.reading.value.origin.Copied? {
      SpentGrows(d.reading.value.origin.n, s.clips, more);
    }
  }

  lemma OwnOk(s: Net, e: Event)
    requires Inv(s) && Enabled(s, e)
    ensures DeviceOk(Next(s, e).devices[e.dev], e.dev, Next(s, e).clips, Next(s, e).copies)
  {
    var d := s.devices[e.dev];
    var d' := NextDevice(s, e);
    var more := NewClips(s, e);
    assert DeviceOk(d, e.dev, s.clips, s.copies);
    if d'.clipboard.Some? && d'.clipboard.value.origin.Copied? {
      SpentGrows(d'.clipboard.value.origin.n, s.clips, more);
      if e.UserCopies? && Spent(|s.copies|, s.clips) {
        assert false;
      }
    }
    if d'.reading.Some? && d'.reading.value.origin.Copied? {
      SpentGrows(d'.reading.value.origin.n, s.clips, more);
    }
  }

  lemma RemoteKept(s: Net, e: Event)
    requires Inv(s) && Enabled(s, e)
    ensures RemoteOk(Next(s, e).devices[e.dev])
  {
    assert RemoteOk(s.devices[e.dev]) && DeviceOk(s.devices[e.dev], e.dev, s.clips, s.copies);
  }

  lemma ClipsKept(s: Net, e: Event)
    requires Inv(s) && Enabled(s, e)
    ensures ClipsOk(Next(s, e))
  {
    var n := Next(s, e);
    assert DeviceOk(s.devices[e.dev], e.dev, s.clips, s.copies);
    forall j, k | 0 <= j < k < |n.clips| && n.clips[j].origin.Copied? ensures n.clips[j].origin != n.clips[k].origin {
      if k == |s.clips| && n.clips[j].origin == n.clips[k].origin {
        assert Spent(n.clips[j].origin.n, s.clips);
      }
    }
  }

  lemma StepKeepsInv(s: Net, e: Event)
    requires Inv(s) && Enabled(s, e)
    ensures Inv(Next(s, e))
  {
    ClipsKept(s, e);
    OwnOk(s, e);
    RemoteKept(s, e);
    forall i | i in s.devices && i != e.dev
      ensures DeviceOk(Next(s, e).devices[i], i, Next(s, e).clips, Next(s, e).copies)
    {
      OthersOk(s, e, i);
    }
  }

  lemma {:induction false} RunKeepsInv(s: Net, es: seq<Event>)
    requires Inv(s)
    ensures Run(s, es).Some? ==> Inv(Run(s, es).value)
    decreases |es|
  {
    if es != [] && Enabled(s, es[0]) {
      StepKeepsInv(s, es[0]);
      RunKeepsInv(Next(s, es[0]), es[1..]);
    }
  }

  lemma ReachableInv(start: Net, es: seq<Event>)
    requires Init(start)
    ensures Run(start, es).Some? ==> Inv(Run(start, es).value)
  {
    InitInv(start);
    RunKeepsInv(start, es);
  }

  // ---------- main results ----------

  /** However polls, applies and users interleave: a clip published from a local copy carries that
      copy's text and comes from its device, and no copy is published twice. */
  lemma CopyPublishedOnce(start: Net, es: seq<Event>, j: nat, k: nat)
    requires Init(start) && Run(start, es).Some? && var s := Run(start, es).value; j < k < |s.clips|
    ensures var s := Run(start, es).value;
            && (s.clips[j].origin.Copied? ==>
                  && s.clips[j].origin.n < |s.copies|
                  && s.copies[s.clips[j].origin.n] == Copy(s.clips[j].source, s.clips[j].text))
            && (s.clips[j].origin.Copied? && s.clips[k].origin.Copied? ==> s.clips[j].origin.n != s.clips[k].origin.n)
  {
    ReachableInv(start, es);
    var s := Run(start, es).value;
    assert CopyOk(Content(s.clips[j].text, s.clips[j].origin), s.clips[j].source, s.copies);
  }

  /** An undisturbed step: no tag lands between a poll's read and its decision, and no poll reads
      between a remote clip's write and its tag. */
  predicate Calm(s: Net, e: Event)
    requires e.dev in s.devices
  {
    && (e.ApplyTags? ==> s.devices[e.dev].reading.None?)
    && (e.PollReads? ==> s.devices[e.dev].untagged.None?)
  }

  predicate CalmRun(s: Net, es: seq<Event>)
    decreases |es|
  {
    es == [] || (Enabled(s, es[0]) && Calm(s, es[0]) && CalmRun(Next(s, es[0]), es[1..]))
  }

  /** In undisturbed runs a remote text that was read is in the tag, and nothing published came from one. */
  ghost predicate CalmInv(s: Net) {
    && (forall k :: 0 <= k < |s.clips| ==> !s.clips[k].origin.Applied?)
    && (forall i :: i in s.devices && s.devices[i].reading.Some? && s.devices[i].reading.value.origin.Applied? ==>
          Ignored(s.devices[i].watch, s.devices[i].reading.value.text))
  }

  lemma {:induction false} CalmKeeps(s: Net, es: seq<Event>)
    requires Inv(s) && CalmInv(s) && CalmRun(s, es)
    ensures Run(s, es).Some? && Inv(Run(s, es).value) && CalmInv(Run(s, es).value)
    decreases |es|
  {
    if es != [] {
      StepKeepsInv(s, es[0]);
      assert RemoteOk(s.devices[es[0].dev]);
      CalmKeeps(Next(s, es[0]), es[1..]);
    }
  }

  /** No echo: in every undisturbed run the automatically published clips inject into the local copies,
      so a text applied from a remote clip is never published again. */
  lemma NoEcho(start: Net, es: seq<Event>)
    requires Init(start) && CalmRun(start, es)
    ensures Run(start, es).Some?
    ensures var s := Run(start, es).value;
            && (forall k :: 0 <= k < |s.clips| && s.clips[k].origin != Sent ==>
                  && s.clips[k].origin.Copied? && s.clips[k].origin.n < |s.copies|
                  && s.copies[s.clips[k].origin.n] == Copy(s.clips[k].source, s.clips[k].text))
            && (forall j, k :: 0 <= j < k < |s.clips| && s.clips[j].origin != Sent && s.clips[k].origin != Sent ==>
                  s.clips[j].origin != s.clips[k].origin)
  {
    InitInv(start);
    CalmKeeps(start, es);
    var s := Run(start, es).value;
    forall k | 0 <= k < |s.clips|
      ensures CopyOk(Content(s.clips[k].text, s.clips[k].origin), s.clips[k].source, s.copies)
    {
    }
  }

  function Auto(clips: seq<Clip>): seq<Clip> {
    if clips == [] then []
    else Auto(clips[..|clips| - 1]) + (if clips[|clips| - 1].origin == Sent then [] else [clips[|clips| - 1]])
  }

  function Used(clips: seq<Clip>): set<nat> {
    set k | 0 <= k < |clips| && clips[k].origin.Copied? :: clips[k].origin.n
  }

  lemma UsedAppends(clips: seq<Clip>, c: Clip)
    ensures Used(clips + [c]) == Used(clips) + (if c.origin.Copied? then {c.origin.n} else {})
  {
    var more := clips + [c];
    forall n | n in Used(clips) ensures n in Used(more) {
      var k :| 0 <= k < |clips| && clips[k].origin.Copied? && clips[k].origin.n == n;
      assert more[k].origin.n == n;
    }
    if c.origin.Copied? {
      assert more[|clips|].origin.n in Used(more);
    }
  }

  lemma {:induction false} CountBound(clips: seq<Clip>)
    requires forall k :: 0 <= k < |clips| && clips[k].origin != Sent ==> clips[k].origin.Copied?
    requires forall j, k :: 0 <= j < k < |clips| && clips[j].origin != Sent && clips[k].origin != Sent ==>
               clips[j].origin != clips[k].origin
    ensures |Auto(clips)| == |Used(clips)|
  {
    if clips != [] {
      var before, last := clips[..|clips| - 1], clips[|clips| - 1];
      CountBound(before);
      assert clips == before + [last];
      UsedAppends(before, last);
    }
  }

  lemma {:induction false} BoundedSet(used: set<nat>, bound: nat)
    requires forall n :: n in used ==> n < bound
    ensures |used| <= bound
  {
    if bound == 0 {
      assert used == {};
    } else {
      BoundedSet(used - {bound - 1}, bound - 1);
    }
  }

  /** One copy cannot ping-pong: polling publishes at most as many clips as users made copies. */
  lemma AtMostOneClipPerCopy(start: Net, es: seq<Event>)
    requires Init(start) && CalmRun(start, es)
    ensures Run(start, es).Some?
    ensures |Auto(Run(start, es).value.clips)| <= |Run(start, es).value.copies|
  {
    NoEcho(start, es);
    var s := Run(start, es).value;
    CountBound(s.clips);
    BoundedSet(Used(s.clips), |s.copies|);
  }

  // ---------- the race ----------

  /** The last text tagged on a device by a list of events. */
  function LastTag(es: seq<Event>, dev: nat): Option<string> {
    if es == [] then None
    else
      var last := es[|es| - 1];
      if last.ApplyTags? && last.dev == dev then Some(last.text) else LastTag(es[..|es| - 1], dev)
  }

  predicate NoDecision(es: seq<Event>, dev: nat) {
    forall k :: 0 <= k < |es| && es[k].dev == dev ==> !es[k].PollDecides?
  }

  lemma {:induction false} RunSplits(s: Net, es: seq<Event>)
    requires es != []
    ensures Run(s, es[..|es| - 1]).None? ==> Run(s, es).None?
    ensures Run(s, es[..|es| - 1]).Some? ==>
              var m := Run(s, es[..|es| - 1]).value;
              Run(s, es) == if Enabled(m, es[|es| - 1]) then Some(Next(m, es[|es| - 1])) else None
    decreases |es|
  {
    if |es| == 1 {
      assert es[..0] == [] && es[1..] == [];
    } else if Enabled(s, es[0]) {
      assert es[1..][..|es| - 2] == es[..|es| - 1][1..];
      RunSplits(Next(s, es[0]), es[1..]);
    }
  }

  /** Between a read and its decision only tags of applied clips change what the poll will ask. */
  lemma {:induction false} TagAfter(s: Net, dev: nat, es: seq<Event>)
    requires dev in s.devices && s.devices[dev].reading.Some? && NoDecision(es, dev)
    requires Run(s, es).Some?
    ensures var n := Run(s, es).value;
            && dev in n.devices && n.devices[dev].reading == s.devices[dev].reading
            && n.devices[dev].watch.tag == if LastTag(es, dev).Some? then LastTag(es, dev) else s.devices[dev].watch.tag
  {
    if es != [] {
      RunSplits(s, es);
      TagAfter(s, dev, es[..|es| - 1]);
      assert NoDecision(es[..|es| - 1], dev);
      assert es[|es| - 1].dev == dev ==> !es[|es| - 1].PollDecides?;
    }
  }

  /** Exactly when a text that came from a remote clip is published again: another text was tagged last
      between the poll's read and its decision, or none was and the poll read before the text's own tag
      landed, the tag still holding something else. */
  lemma EchoExactly(start: Net, before: seq<Event>, dev: nat, window: seq<Event>)
    requires Init(start) && Run(start, before).Some?
    requires var s := Run(start, before).value;
             && Enabled(s, PollReads(dev)) && Fresh(s.devices[dev].watch, Text(s.devices[dev].clipboard))
             && s.devices[dev].clipboard.value.origin.Applied?
    requires NoDecision(window, dev) && Run(Next(Run(start, before).value, PollReads(dev)), window).Some?
    ensures var d := Run(start, before).value.devices[dev];
            var text := d.clipboard.value.text;
            var n := Run(Next(Run(start, before).value, PollReads(dev)), window).value;
            && Enabled(n, PollDecides(dev, true))
            && n.devices[dev].reading == d.clipboard
            && (Publishes(n.devices[dev], PollDecides(dev, true)) <==>
                  if LastTag(window, dev).Some? then LastTag(window, dev) != Some(text)
                  else d.untagged == Some(text) && d.watch.tag != Some(text))
  {
    ReachableInv(start, before);
    var s := Run(start, before).value;
    assert RemoteOk(s.devices[dev]);
    TagAfter(Next(s, PollReads(dev)), dev, window);
  }

  // ---------- what is published, exactly ----------

  /** Event i is a poll of the device deciding to ignore the text it read. */
  ghost predicate IgnoredAt(start: Net, es: seq<Event>, i: nat, dev: nat) {
    && i < |es| && es[i].PollDecides? && es[i].dev == dev && Run(start, es[..i]).Some?
    && var n := Run(start, es[..i]).value;
    && dev in n.devices && n.devices[dev].reading.Some?
    && n.devices[dev].watch.tag == Some(n.devices[dev].reading.value.text)
  }

  /** Event t tags the text, and since then the device had no other tag and ignored nothing. */
  ghost predicate PendingSince(start: Net, es: seq<Event>, dev: nat, text: string, t: nat) {
    && t < |es| && es[t] == ApplyTags(dev, text)
    && forall k :: t < k < |es| ==> !(es[k].ApplyTags? && es[k].dev == dev) && !IgnoredAt(start, es, k, dev)
  }

  ghost predicate Pending(start: Net, es: seq<Event>, dev: nat, text: string) {
    exists t: nat :: PendingSince(start, es, dev, text, t)
  }

  lemma IgnoredInPrefix(start: Net, es: seq<Event>, n: nat, i: nat, dev: nat)
    requires i < n <= |es|
    ensures IgnoredAt(start, es[..n], i, dev) <==> IgnoredAt(start, es, i, dev)
  {
    assert es[..n][..i] == es[..i];
  }

  /** How one more event changes which tag is pending. */
  lemma PendingStep(start: Net, es: seq<Event>, dev: nat, text: string)
    requires es != []
    ensures var last := es[|es| - 1];
            Pending(start, es, dev, text) <==>
              if last.ApplyTags? && last.dev == dev then last.text == text
              else !IgnoredAt(start, es, |es| - 1, dev) && Pending(start, es[..|es| - 1], dev, text)
  {
    var n := |es| - 1;
    var last, before := es[n], es[..n];
    forall k: nat | k < n ensures IgnoredAt(start, before, k, dev) <==> IgnoredAt(start, es, k, dev) {
      IgnoredInPrefix(start, es, n, k, dev);
    }
    if Pending(start, es, dev, text) {
      var t: nat :| PendingSince(start, es, dev, text, t);
      if t < n {
        assert PendingSince(start, before, dev, text, t);
      }
    }
    if last == ApplyTags(dev, text) {
      assert PendingSince(start, es, dev, text, n);
    }
    if Pending(start, before, dev, text) && !(last.ApplyTags? && last.dev == dev) && !IgnoredAt(start, es, n, dev) {
      var t: nat :| PendingSince(start, before, dev, text, t);
      assert PendingSince(start, es, dev, text, t);
    }
  }

  /** The tag of a device holds exactly the pending text. */
  lemma {:induction false} TagIsPending(start: Net, es: seq<Event>, dev: nat, text: string)
    requires Init(start) && dev in start.devices && Run(start, es).Some?
    ensures dev in Run(start, es).value.devices
    ensures Run(start, es).value.devices[dev].watch.tag == Some(text) <==> Pending(start, es, dev, text)
    decreases |es|
  {
    if es != [] {
      RunSplits(start, es);
      TagIsPending(start, es[..|es| - 1], dev, text);
      PendingStep(start, es, dev, text);
    }
  }

  /** A decision to ignore a text uses up a tag of that text, set before and not used before. */
  lemma IgnoredHasTag(start: Net, es: seq<Event>, i: nat, dev: nat) returns (t: nat)
    requires Init(start) && dev in start.devices && Run(start, es).Some? && IgnoredAt(start, es, i, dev)
    ensures t < i && es[t] == ApplyTags(dev, Run(start, es[..i]).value.devices[dev].reading.value.text)
    ensures forall k :: t < k < i ==> !IgnoredAt(start, es, k, dev)
  {
    var text := Run(start, es[..i]).value.devices[dev].reading.value.text;
    TagIsPending(start, es[..i], dev, text);
    t :| PendingSince(start, es[..i], dev, text, t);
    forall k: nat | t < k < i ensures !IgnoredAt(start, es, k, dev) {
      IgnoredInPrefix(start, es, i, k, dev);
    }
  }

  /** Every tag suppresses at most one decision: between any two decisions of a device that ignore their
      text, the later one's tag was set; so ignored decisions inject into the tags before them. */
  lemma TagsSuppressOnce(start: Net, es: seq<Event>, i: nat, j: nat, dev: nat) returns (t: nat, u: nat)
    requires Init(start) && dev in start.devices && Run(start, es).Some?
    requires i < j && IgnoredAt(start, es, i, dev) && IgnoredAt(start, es, j, dev)
    ensures t < i < u < j
    ensures es[t] == ApplyTags(dev, Run(start, es[..i]).value.devices[dev].reading.value.text)
    ensures es[u] == ApplyTags(dev, Run(start, es[..j]).value.devices[dev].reading.value.text)
  {
    t := IgnoredHasTag(start, es, i, dev);
    u := IgnoredHasTag(start, es, j, dev);
    assert !(u < i);
    assert es[i].PollDecides? && es[u].ApplyTags?;
  }

  /** Exactly which texts that a poll read are published: those the policy and the server let through and
      whose tag is not pending. So a tag swallows one local copy at most. */
  lemma PublishedExactly(start: Net, es: seq<Event>, dev: nat, goes: bool)
    requires Init(start) && dev in start.devices && Run(start, es).Some?
    requires Enabled(Run(start, es).value, PollDecides(dev, goes))
    ensures var n := Run(start, es).value;
            var read := n.devices[dev].reading.value;
            Next(n, PollDecides(dev, goes)).clips
            == if goes && !Pending(start, es, dev, read.text) then n.clips + [Clip(dev, read.text, read.origin)]
               else n.clips
  {
    TagIsPending(start, es, dev, Run(start, es).value.devices[dev].reading.value.text);
  }

  /** The text a device's poll decided about last; at first what the clipboard held at the start. */
  function LastDecided(start: Net, es: seq<Event>, dev: nat): Option<string>
    requires dev in start.devices
    decreases |es|
  {
    if es == [] then start.devices[dev].watch.lastSeen
    else
      var before, last := es[..|es| - 1], es[|es| - 1];
      if last.PollDecides? && last.dev == dev && Run(start, before).Some? && dev in Run(start, before).value.devices
      then Text(Run(start, before).value.devices[dev].reading)
      else LastDecided(start, before, dev)
  }

  lemma {:induction false} LastSeenIsLastDecided(start: Net, es: seq<Event>, dev: nat)
    requires dev in start.devices && Run(start, es).Some?
    ensures dev in Run(start, es).value.devices
    ensures Run(start, es).value.devices[dev].watch.lastSeen == LastDecided(start, es, dev)
    decreases |es|
  {
    if es != [] {
      RunSplits(start, es);
      LastSeenIsLastDecided(start, es[..|es| - 1], dev);
    }
  }

  /** Exactly which local copies a poll reads: those with text, unless the poll decided about the same text
      last. */
  lemma CopyIsReadExactly(start: Net, es: seq<Event>, dev: nat, text: string)
    requires dev in start.devices && Run(start, es).Some?
    requires var n := Run(start, es).value; dev in n.devices && n.devices[dev].reading.None?
    ensures var n := Next(Run(start, es).value, UserCopies(dev, text));
            && Enabled(n, PollReads(dev))
            && Next(n, PollReads(dev)).devices[dev].reading
               == if text != "" && LastDecided(start, es, dev) != Some(text)
                  then Some(Content(text, Copied(|n.copies| - 1))) else None
  {
    LastSeenIsLastDecided(start, es, dev);
  }

  /** What a user sends is published as it is, and nothing else of the device changes. */
  lemma SendPublishes(s: Net, dev: nat, text: string)
    requires dev in s.devices
    ensures Enabled(s, UserSends(dev, text))
    ensures Next(s, UserSends(dev, text)) == s.(clips := s.clips + [Clip(dev, text, Sent)])
  {
    assert s.devices[dev := s.devices[dev]] == s.devices;
  }

  /** Applying a clip puts its text on the clipboard, and then tags it. */
  lemma AppliedIsTagged(s: Net, dev: nat, k: nat)
    requires Enabled(s, ApplyWrites(dev, k))
    ensures var n := Next(s, ApplyWrites(dev, k));
            var text := s.clips[k].text;
            && n.devices[dev].clipboard == Some(Content(text, Applied(k)))
            && Enabled(n, ApplyTags(dev, text))
            && Next(n, ApplyTags(dev, text)).devices[dev].watch.tag == Some(text)
            && Next(n, ApplyTags(dev, text)).devices[dev].untagged == None
  {
  }

  /** Nothing empty is published unless a user sends it. */
  lemma {:induction false} PublishedHasText(start: Net, es: seq<Event>)
    requires Init(start) && Run(start, es).Some?
    ensures var n := Run(start, es).value;
            && (forall k :: 0 <= k < |n.clips| && n.clips[k].origin != Sent ==> n.clips[k].text != "")
            && (forall i :: i in n.devices && n.devices[i].reading.Some? ==> n.devices[i].reading.value.text != "")
    decreases |es|
  {
    if es != [] {
      RunSplits(start, es);
      PublishedHasText(start, es[..|es| - 1]);
    }
  }

  lemma RunFirst(s: Net, e: Event, es: seq<Event>)
    requires Enabled(s, e)
    ensures Run(s, [e] + es) == Run(Next(s, e), es)
  {
    assert ([e] + es)[1..] == es;
  }

  /** A device copies and its poll publishes. */
  lemma CopyGoesOut(s: Net, dev: nat, text: string) returns (es: seq<Event>, n: Net)
    requires dev in s.devices && text != ""
    requires s.devices[dev] == IDLE
    ensures Run(s, es) == Some(n)
    ensures n.copies == s.copies + [Copy(dev, text)] && n.clips == s.clips + [Clip(dev, text, Copied(|s.copies|))]
    ensures n.devices.Keys == s.devices.Keys && forall i :: i in s.devices && i != dev ==> n.devices[i] == s.devices[i]
  {
    var e1, e2, e3 := UserCopies(dev, text), PollReads(dev), PollDecides(dev, true);
    var s1 := Next(s, e1);
    var s2 := Next(s1, e2);
    n := Next(s2, e3);
    RunFirst(s2, e3, []);
    RunFirst(s1, e2, [e3] + []);
    RunFirst(s, e1, [e2] + ([e3] + []));
    es := [e1] + ([e2] + ([e3] + []));
  }

  /** A remote clip is written, and the poll reads and decides before the tag. */
  lemma RemoteGoesOut(s: Net, dev: nat, clip: nat) returns (es: seq<Event>, n: Net)
    requires dev in s.devices && clip < |s.clips| && s.clips[clip].source != dev && s.clips[clip].text != ""
    requires s.devices[dev] == IDLE
    ensures Run(s, es) == Some(n)
    ensures n.copies == s.copies && n.clips == s.clips + [Clip(dev, s.clips[clip].text, Applied(clip))]
  {
    var e1, e2, e3 := ApplyWrites(dev, clip), PollReads(dev), PollDecides(dev, true);
    var s1 := Next(s, e1);
    var s2 := Next(s1, e2);
    n := Next(s2, e3);
    RunFirst(s2, e3, []);
    RunFirst(s1, e2, [e3] + []);
    RunFirst(s, e1, [e2] + ([e3] + []));
    es := [e1] + ([e2] + ([e3] + []));
  }

  lemma {:induction false} RunJoins(s: Net, es: seq<Event>, more: seq<Event>)
    requires Run(s, es).Some?
    ensures Run(s, es + more) == Run(Run(s, es).value, more)
    decreases |es|
  {
    if es == [] {
      assert es + more == more;
    } else {
      assert (es + more)[1..] == es[1..] + more;
      RunJoins(Next(s, es[0]), es[1..], more);
    }
  }

  /** The race is real: one copy on one device, applied on another whose poll comes between the write
      and the tag, is published twice. */
  lemma EchoHappens(text: string) returns (start: Net, es: seq<Event>)
    requires text != ""
    ensures Init(start) && Run(start, es).Some?
    ensures var s := Run(start, es).value;
            s.copies == [Copy(0, text)] && s.clips == [Clip(0, text, Copied(0)), Clip(1, text, Applied(0))]
  {
    start := Net(map[0 := IDLE, 1 := IDLE], [], []);
    var first, s := CopyGoesOut(start, 0, text);
    var second, n := RemoteGoesOut(s, 1, 0);
    es := first + second;
    RunJoins(start, first, second);
  }

  /** A remote text is applied and tagged, but the user copies something else before the poll looks; that
      other text goes out. */
  lemma TagStaysBehind(s: Net, text: string, other: string) returns (es: seq<Event>, n: Net)
    requires s == Net(map[0 := IDLE, 1 := IDLE], [Clip(0, text, Sent)], []) && text != other && other != ""
    ensures Run(s, es) == Some(n)
    ensures n == Net(map[0 := IDLE,
                         1 := Device(Some(Content(other, Copied(0))), Watch(Some(other), Some(text)), None, None)],
                     [Clip(0, text, Sent), Clip(1, other, Copied(0))], [Copy(1, other)])
  {
    var e1, e2, e3, e4, e5 :=
      ApplyWrites(1, 0), ApplyTags(1, text), UserCopies(1, other), PollReads(1), PollDecides(1, true);
    var s1 := Next(s, e1);
    var s2 := Next(s1, e2);
    var s3 := Next(s2, e3);
    var s4 := Next(s3, e4);
    n := Next(s4, e5);
    RunFirst(s4, e5, []);
    RunFirst(s3, e4, [e5] + []);
    RunFirst(s2, e3, [e4] + ([e5] + []));
    RunFirst(s1, e2, [e3] + ([e4] + ([e5] + [])));
    RunFirst(s, e1, [e2] + ([e3] + ([e4] + ([e5] + []))));
    es := [e1] + ([e2] + ([e3] + ([e4] + ([e5] + []))));
  }

  /** A copy can be swallowed: when the user then copies the remote text, the tag left behind makes the poll
      ignore it, although it is news. */
  lemma CopyCanBeSwallowed(text: string, other: string) returns (start: Net, es: seq<Event>, n: Net)
    requires text != other && text != "" && other != ""
    ensures Init(start) && Run(start, es) == Some(n)
    ensures n.copies == [Copy(1, other), Copy(1, text)]
    ensures 1 in n.devices && n.devices[1].watch.lastSeen == Some(text)
    ensures n.clips == [Clip(0, text, Sent), Clip(1, other, Copied(0))]
  {
    start := Net(map[0 := IDLE, 1 := IDLE], [], []);
    var send := UserSends(0, text);
    SendPublishes(start, 0, text);
    var first, m := TagStaysBehind(Next(start, send), text, other);
    var e1, e2, e3 := UserCopies(1, text), PollReads(1), PollDecides(1, true);
    var s1 := Next(m, e1);
    var s2 := Next(s1, e2);
    n := Next(s2, e3);
    RunFirst(s2, e3, []);
    RunFirst(s1, e2, [e3] + []);
    RunFirst(m, e1, [e2] + ([e3] + []));
    var second := [e1] + ([e2] + ([e3] + []));
    RunJoins(Next(start, send), first, second);
    RunFirst(start, send, first + second);
    es := [send] + (first + second);
  }
}
