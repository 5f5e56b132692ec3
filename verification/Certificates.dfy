/**
The certificate request protocol. Two tasks - the DesiredState handler and the renewal
checker - generate a key, put it in the per-service slot of a shared store and send a signing
request; each response takes whatever key is in the slot. Keys are opaque: a key stands for
the pair, and a certificate is the public key it was signed for.
*/
module Certificates {
  import opened Wrappers

  type Key = nat

  datatype Response = Response(name: string, cn: Option<string>, certIsText: bool, chainIsText: bool, signed: Key)

  datatype Install =
    | Split(service: string, key: Key, signed: Key)
    | Legacy(service: string, signed: Key)
    | Failed

  type Slots = map<string, Key>

  /** The service a response is for: the explicit field, else the certificate's common name. */
  function ServiceOf(r: Response): Option<string> {
    if r.name != "" then Some(r.name)
    else if !r.certIsText then None
    else if r.cn.Some? then r.cn
    else Some("unknown")
  }

  function InstallOf(slots: Slots, r: Response): Install {
    match ServiceOf(r)
    case None => Failed
    case Some(svc) =>
      if svc !in slots then Legacy(svc, r.signed)
      else if !r.certIsText || !r.chainIsText then Failed
      else Split(svc, slots[svc], r.signed)
  }

  function SlotsAfter(slots: Slots, r: Response): Slots {
    match ServiceOf(r)
    case None => slots
    case Some(svc) => slots - {svc}
  }

  // ---------- the store and the installation ----------

  class PendingKeyStore {
    var keys: Slots

    constructor ()
      ensures keys == map[]
    {
      keys := map[];
    }

    method Store(service: string, key: Key)
      modifies this
      ensures keys == old(keys)[service := key]
    {
      keys := keys[service := key];
    }

    method Take(service: string) returns (key: Option<Key>)
      modifies this
      ensures key == if service in old(keys) then Some(old(keys)[service]) else None
      ensures keys == old(keys) - {service}
    {
      key := if service in keys then Some(keys[service]) else None;
      keys := keys - {service};
    }
  }

  method InstallReceivedSvid(store: PendingKeyStore, r: Response) returns (install: Install)
    modifies store
    ensures install == InstallOf(old(store.keys), r)
    ensures store.keys == SlotsAfter(old(store.keys), r)
  {
    var service: string;
    if r.name != "" {
      service := r.name;
    } else {
      if !r.certIsText {
        return Failed;
      }
      service := if r.cn.Some? then r.cn.value else "unknown";
    }
    var key := store.Take(service);
    if key.Some? {
      if !r.certIsText || !r.chainIsText {
        return Failed;
      }
      install := Split(service, key.value, r.signed);
    } else {
      install := Legacy(service, r.signed);
    }
  }

  // ---------- the protocol ----------

  datatype Task = Handler | Renewal

  /** Where a request is: stored but not sent, at the server, or answered. */
  datatype Stage = Sending(task: Task) | Requested | Answered(response: Response)
  datatype Token = Token(service: string, stage: Stage)

  datatype State = State(
    slots: Slots,
    flight: map<Key, Token>,
    owner: map<Key, string>,
    installed: seq<Install>,
    stores: nat,
    takes: nat,
    overwrites: nat,
    nextKey: Key)

  datatype Event =
    | Store(task: Task, service: string)
    | Send(key: Key, accepted: bool)
    | Serve(key: Key, response: Response)
    | Deny(key: Key)
    | Receive(key: Key)
    | Push(response: Response)

  const INITIAL := State(map[], map[], map[], [], 0, 0, 0, 0)

  /** The server answers a request with the requested service and signs the requested key. It may
      also push any response unasked, with or without a service name. */
  predicate Enabled(s: State, e: Event) {
    match e
    case Store(task, svc) => forall k :: k in s.flight ==> s.flight[k].stage != Sending(task)
    case Send(k, _) => k in s.flight && s.flight[k].stage.Sending?
    case Serve(k, r) => k in s.flight && s.flight[k].stage.Requested? && r.signed == k && r.name == s.flight[k].service
    case Deny(k) => k in s.flight && s.flight[k].stage.Requested?
    case Receive(k) => k in s.flight && s.flight[k].stage.Answered?
    case Push(_) => true
  }

  function Step(s: State, e: Event): State
    requires Enabled(s, e)
  {
    match e
    case Store(task, svc) =>
      var k := s.nextKey;
      s.(slots := s.slots[svc := k],
         flight := s.flight[k := Token(svc, Sending(task))],
         owner := s.owner[k := svc],
         stores := s.stores + 1,
         overwrites := s.overwrites + (if svc in s.slots then 1 else 0),
         nextKey := k + 1)
    case Send(k, accepted) =>
      if accepted then s.(flight := s.flight[k := s.flight[k].(stage := Requested)])
      else s.(flight := s.flight - {k})
    case Serve(k, r) => s.(flight := s.flight[k := s.flight[k].(stage := Answered(r))])
    case Deny(k) => s.(flight := s.flight - {k})
    case Receive(k) => Installed(s, s.flight[k].stage.response).(flight := s.flight - {k})
    case Push(r) => Installed(s, r)
  }

  /** The effect of a response on the slots and the installed certificates. */
  function Installed(s: State, r: Response): State {
    s.(slots := SlotsAfter(s.slots, r),
       installed := s.installed + [InstallOf(s.slots, r)],
       takes := s.takes + (if ServiceOf(r).Some? && ServiceOf(r).value in s.slots then 1 else 0))
  }

  ghost predicate IsRun(run: seq<Event>) {
    run == [] || (IsRun(run[..|run| - 1]) && Enabled(Exec(run[..|run| - 1]), run[|run| - 1]))
  }

  ghost function Exec(run: seq<Event>): State
  {
    if run == [] then INITIAL
    else
      var s := Exec(run[..|run| - 1]);
      if Enabled(s, run[|run| - 1]) then Step(s, run[|run| - 1]) else s
  }

  // ---------- what every run keeps ----------

  /** Every key generated so far has an owner, and requests in flight are for their owner. */
  ghost predicate KeysOwned(s: State) {
    && (forall k: Key :: k in s.owner <==> k < s.nextKey)
    && (forall k :: k in s.flight ==> k < s.nextKey && s.flight[k].service == s.owner[k])
    && (forall k :: k in s.flight && s.flight[k].stage.Answered? ==>
          s.flight[k].stage.response.signed == k && s.flight[k].stage.response.name == s.flight[k].service)
  }

  /** A key in a slot is in its own service's slot and has not been installed. */
  ghost predicate SlotsOwned(s: State) {
    forall svc :: svc in s.slots ==>
      && s.slots[svc] in s.owner && s.owner[s.slots[svc]] == svc
      && !WasInstalled(s.installed, s.slots[svc])
  }

  ghost predicate WasInstalled(installed: seq<Install>, k: Key) {
    exists i :: 0 <= i < |installed| && installed[i].Split? && installed[i].key == k
  }

  /** An installed key was generated for the service it is installed for, and only once. */
  ghost predicate InstalledOnce(s: State) {
    && (forall i :: 0 <= i < |s.installed| && s.installed[i].Split? ==>
          s.installed[i].key in s.owner && s.owner[s.installed[i].key] == s.installed[i].service)
    && (forall i, j :: 0 <= i < j < |s.installed| && s.installed[i].Split? && s.installed[j].Split? ==>
          s.installed[i].key != s.installed[j].key)
  }

  predicate Conserved(s: State) {
    s.stores == s.takes + s.overwrites + |s.slots|
  }

  ghost predicate Sound(s: State) {
    KeysOwned(s) && SlotsOwned(s) && InstalledOnce(s) && Conserved(s)
  }

  lemma SlotCount(slots: Slots, svc: string, k: Key)
    ensures |slots[svc := k]| == |slots| + if svc in slots then 0 else 1
    ensures |slots - {svc}| == |slots| - if svc in slots then 1 else 0
  {
    assert slots[svc := k].Keys == slots.Keys + {svc};
    assert (slots - {svc}).Keys == slots.Keys - {svc};
    assert |slots| == |slots.Keys|;
  }

  lemma InstalledOneMore(installed: seq<Install>, i: Install, k: Key)
    ensures WasInstalled(installed + [i], k) <==> WasInstalled(installed, k) || (i.Split? && i.key == k)
  {
    var more := installed + [i];
    if WasInstalled(installed, k) {
      var j :| 0 <= j < |installed| && installed[j].Split? && installed[j].key == k;
      assert more[j] == installed[j];
    }
    assert more[|installed|] == i;
  }

  lemma InstallKeepsSlots(s: State, r: Response)
    requires SlotsOwned(s) && InstalledOnce(s) && KeysOwned(s)
    ensures SlotsOwned(Installed(s, r))
  {
    var s', i := Installed(s, r), InstallOf(s.slots, r);
    forall svc | svc in s'.slots
      ensures !WasInstalled(s'.installed, s.slots[svc])
    {
      InstalledOneMore(s.installed, i, s.slots[svc]);
    }
  }

  lemma InstallKeepsInstalled(s: State, r: Response)
    requires SlotsOwned(s) && InstalledOnce(s)
    ensures InstalledOnce(Installed(s, r))
  {
    var i := InstallOf(s.slots, r);
    assert i.Split? ==> !WasInstalled(s.installed, i.key);
  }

  /** Whatever a response says and whoever asked for it, installing it keeps the invariant. */
  lemma InstallKeepsSound(s: State, r: Response)
    requires Sound(s)
    ensures Sound(Installed(s, r))
  {
    InstallKeepsSlots(s, r);
    InstallKeepsInstalled(s, r);
    if ServiceOf(r).Some? {
      SlotCount(s.slots, ServiceOf(r).value, 0);
    }
  }

  lemma StoreKeepsKeys(s: State, task: Task, svc: string)
    requires KeysOwned(s) && Enabled(s, Store(task, svc))
    ensures KeysOwned(Step(s, Store(task, svc)))
  {
  }

  lemma StoreKeepsSlots(s: State, task: Task, svc: string)
    requires Sound(s) && Enabled(s, Store(task, svc))
    ensures SlotsOwned(Step(s, Store(task, svc)))
  {
    assert s.nextKey !in s.owner;
    assert !WasInstalled(s.installed, s.nextKey);
  }

  lemma StoreKeepsInstalled(s: State, task: Task, svc: string)
    requires KeysOwned(s) && InstalledOnce(s) && Enabled(s, Store(task, svc))
    ensures InstalledOnce(Step(s, Store(task, svc)))
  {
    assert s.nextKey !in s.owner;
  }

  lemma StoreKeepsSound(s: State, task: Task, svc: string)
    requires Sound(s) && Enabled(s, Store(task, svc))
    ensures Sound(Step(s, Store(task, svc)))
  {
    StoreKeepsKeys(s, task, svc);
    StoreKeepsSlots(s, task, svc);
    StoreKeepsInstalled(s, task, svc);
    SlotCount(s.slots, svc, s.nextKey);
  }

  lemma StepKeepsSound(s: State, e: Event)
    requires Sound(s) && Enabled(s, e)
    ensures Sound(Step(s, e))
  {
    match e
    case Store(task, svc) => StoreKeepsSound(s, task, svc);
    case Receive(k) => InstallKeepsSound(s, s.flight[k].stage.response);
    case Push(r) => InstallKeepsSound(s, r);
    case _ =>
  }

  /** In every run, a locally generated key is paired with at most one certificate, and only for
      the service it was generated for; and every stored key was taken, overwritten or is pending. */
  lemma {:induction false} AlwaysSound(run: seq<Event>)
    requires IsRun(run)
    ensures Sound(Exec(run))
  {
    if run == [] {
      assert Conserved(INITIAL) && SlotsOwned(INITIAL) && InstalledOnce(INITIAL) && KeysOwned(INITIAL);
    } else {
      AlwaysSound(run[..|run| - 1]);
      StepKeepsSound(Exec(run[..|run| - 1]), run[|run| - 1]);
    }
  }

  // ---------- pairing ----------

  predicate Outstanding(s: State, svc: string) {
    exists k :: k in s.flight && s.flight[k].service == svc
  }

  /** The response would take a pending key. */
  predicate TakesKey(s: State, r: Response) {
    ServiceOf(r).Some? && ServiceOf(r).value in s.slots
  }

  /** A request for a named service is stored only when none for it is outstanding, and what is
      pushed unasked finds no pending key. */
  predicate Apart(s: State, e: Event) {
    && (e.Store? ==> e.service != "" && !Outstanding(s, e.service))
    && (e.Push? ==> !TakesKey(s, e.response))
  }

  ghost predicate NoOverlap(run: seq<Event>) {
    run == [] || (NoOverlap(run[..|run| - 1]) && Apart(Exec(run[..|run| - 1]), run[|run| - 1]))
  }

  /** Every outstanding request has its own key waiting in its slot. */
  ghost predicate Matched(s: State) {
    && (forall k :: k in s.flight ==>
          var svc := s.flight[k].service;
          svc != "" && svc in s.slots && s.slots[svc] == k)
    && (forall i :: 0 <= i < |s.installed| && s.installed[i].Split? ==> s.installed[i].signed == s.installed[i].key)
  }

  lemma StepKeepsMatched(s: State, e: Event)
    requires Sound(s) && Matched(s) && Enabled(s, e) && Apart(s, e)
    ensures Matched(Step(s, e))
  {
  }

  /** With at most one outstanding request per service and no stray responses, every split-installed certificate carries
      the public key of the private key it is paired with. */
  lemma {:induction false} PairingIsRight(run: seq<Event>)
    requires IsRun(run) && NoOverlap(run)
    ensures Matched(Exec(run))
  {
    if run != [] {
      PairingIsRight(run[..|run| - 1]);
      AlwaysSound(run[..|run| - 1]);
      StepKeepsMatched(Exec(run[..|run| - 1]), run[|run| - 1]);
    }
  }

  /** Whether a step stores into or takes from the slot of a service. */
  predicate Touches(s: State, e: Event, svc: string) {
    || (e.Store? && e.service == svc)
    || (e.Receive? && e.key in s.flight && s.flight[e.key].stage.Answered?
        && ServiceOf(s.flight[e.key].stage.response) == Some(svc))
    || (e.Push? && ServiceOf(e.response) == Some(svc))
  }

  ghost predicate Untouched(run: seq<Event>, from: nat, svc: string)
    requires from <= |run|
  {
    forall i :: from <= i < |run| ==> !Touches(Exec(run[..i]), run[i], svc)
  }

  lemma SlotStep(s: State, e: Event, svc: string, k: Key)
    requires Enabled(s, e) && k < s.nextKey
    ensures var s' := Step(s, e);
            svc in s'.slots && s'.slots[svc] == k <==> svc in s.slots && s.slots[svc] == k && !Touches(s, e, svc)
  {
  }

  lemma UntouchedSnoc(run: seq<Event>, from: nat, svc: string)
    requires from < |run|
    ensures Untouched(run, from, svc) <==>
            && Untouched(run[..|run| - 1], from, svc)
            && !Touches(Exec(run[..|run| - 1]), run[|run| - 1], svc)
  {
    var before := run[..|run| - 1];
    forall i | 0 <= i < |before|
      ensures before[..i] == run[..i] && before[i] == run[i]
    {
    }
    if Untouched(run, from, svc) {
      forall i | from <= i < |before|
        ensures !Touches(Exec(before[..i]), before[i], svc)
      {
        assert !Touches(Exec(run[..i]), run[i], svc);
      }
    } else {
      var i :| from <= i < |run| && Touches(Exec(run[..i]), run[i], svc);
      assert i < |before| ==> Touches(Exec(before[..i]), before[i], svc);
    }
  }

  /** The key stored by event `p` for a service is in its slot later if and only if nothing has
      been stored for, or received for, that service since. */
  lemma {:induction false} SlotHoldsKey(run: seq<Event>, p: nat, svc: string, k: Key)
    requires IsRun(run) && p < |run| && run[p].Store? && run[p].service == svc && k == Exec(run[..p]).nextKey
    ensures var s := Exec(run);
            svc in s.slots && s.slots[svc] == k <==> Untouched(run, p + 1, svc)
  {
    var before := run[..|run| - 1];
    if p == |run| - 1 {
      assert run[..p] == before;
    } else {
      assert before[..p] == run[..p];
      SlotHoldsKey(before, p, svc, k);
      KeyIsOld(before, p);
      SlotStep(Exec(before), run[|run| - 1], svc, k);
      UntouchedSnoc(run, p + 1, svc);
    }
  }

  /** Exactly when an answer is paired rightly: its own key is still in the slot, that is, nothing
      was stored or received for the service since the key was stored. */
  lemma PairedRightlyIff(run: seq<Event>, p: nat, svc: string, k: Key)
    requires IsRun(run) && p < |run| && run[p].Store? && run[p].service == svc != "" && k == Exec(run[..p]).nextKey
    requires Enabled(Exec(run), Receive(k)) && Exec(run).flight[k].service == svc
    requires var r := Exec(run).flight[k].stage.response; r.certIsText && r.chainIsText
    ensures InstallOf(Exec(run).slots, Exec(run).flight[k].stage.response) == Split(svc, k, k) <==>
            Untouched(run, p + 1, svc)
  {
    AlwaysSound(run);
    SlotHoldsKey(run, p, svc, k);
  }

  lemma {:induction false} KeyIsOld(run: seq<Event>, p: nat)
    requires IsRun(run) && p < |run| && run[p].Store?
    ensures Exec(run[..p]).nextKey < Exec(run).nextKey
  {
    var before := run[..|run| - 1];
    if p == |run| - 1 {
      assert run[..p] == before;
    } else {
      assert before[..p] == run[..p];
      KeyIsOld(before, p);
    }
  }

  lemma Snoc(run: seq<Event>, e: Event)
    requires IsRun(run) && Enabled(Exec(run), e)
    ensures IsRun(run + [e]) && Exec(run + [e]) == Step(Exec(run), e)
  {
    assert (run + [e])[..|run|] == run;
  }

  lemma TwoRequests() returns (run: seq<Event>)
    ensures IsRun(run) && Exec(run).installed == [] && Exec(run).slots == map["web" := 1]
    ensures Exec(run).flight == map[0 := Token("web", Requested), 1 := Token("web", Sending(Renewal))]
  {
    run := [];
    Snoc(run, Store(Handler, "web"));
    run := run + [Store(Handler, "web")];
    Snoc(run, Send(0, true));
    run := run + [Send(0, true)];
    Snoc(run, Store(Renewal, "web"));
    run := run + [Store(Renewal, "web")];
  }

  /** Overlap breaks the pairing: the handler and the renewal loop both request a certificate for
      "web", and the first answer is paired with the second key. */
  lemma OverlapMispairs() returns (run: seq<Event>)
    ensures IsRun(run) && Exec(run).installed == [Split("web", 1, 0)]
    ensures Exec(run).slots == map[] && Exec(run).flight == map[1 := Token("web", Sending(Renewal))]
  {
    run := TwoRequests();
    var r := Response("web", None, true, true, 0);
    Snoc(run, Serve(0, r));
    run := run + [Serve(0, r)];
    Snoc(run, Receive(0));
    run := run + [Receive(0)];
  }

  // ---------- what a response installs ----------

  /** The service a response names: its own field; without one, the common name of a readable
      certificate; without that, "unknown". */
  predicate Names(r: Response, svc: string) {
    if r.name != "" then svc == r.name
    else r.certIsText && (if r.cn.Some? then svc == r.cn.value else svc == "unknown")
  }

  /** The event delivers the response. */
  predicate Delivers(s: State, e: Event, r: Response)
    requires Enabled(s, e)
  {
    (e.Receive? && s.flight[e.key].stage.response == r) || (e.Push? && e.response == r)
  }

  /** What a delivered response does, by its fields and the slot. It names no service, and fails, exactly
      when it has no name and its certificate is not text. For the service it names: with the slot empty
      it is installed in the legacy form; with the slot full it takes the key, and is installed split if
      certificate and chain are text and fails otherwise. No other slot is touched. */
  lemma DeliveryIff(s: State, e: Event, r: Response, svc: string)
    requires Enabled(s, e) && Delivers(s, e, r)
    ensures var s' := Step(s, e);
            |s'.installed| == |s.installed| + 1 && s'.installed[..|s.installed|] == s.installed
    ensures var i, s' := Step(s, e).installed[|s.installed|], Step(s, e);
            && (i == Legacy(svc, r.signed) <==> Names(r, svc) && svc !in s.slots)
            && (Names(r, svc) ==>
                  && s'.slots == s.slots - {svc}
                  && (i == Failed <==> svc in s.slots && !(r.certIsText && r.chainIsText))
                  && (i.Split? <==> svc in s.slots && r.certIsText && r.chainIsText)
                  && (svc in s.slots && i.Split? ==> i == Split(svc, s.slots[svc], r.signed)))
            && (r.name == "" && !r.certIsText <==> forall name :: !Names(r, name))
            && (r.name == "" && !r.certIsText ==> i == Failed && s'.slots == s.slots)
  {
    assert r.name != "" ==> Names(r, r.name);
    assert r.name == "" && r.certIsText ==> Names(r, if r.cn.Some? then r.cn.value else "unknown");
  }

  /** A response for the service was delivered. */
  predicate Takes(s: State, e: Event, svc: string) {
    || (e.Receive? && e.key in s.flight && s.flight[e.key].stage.Answered?
        && Names(s.flight[e.key].stage.response, svc))
    || (e.Push? && Names(e.response, svc))
  }

  predicate Stores(e: Event, svc: string) {
    e.Store? && e.service == svc
  }

  /** Nothing was stored for the service since event `i`. */
  predicate NoStoreSince(run: seq<Event>, i: int, svc: string) {
    forall j :: i < j < |run| && 0 <= j ==> !Stores(run[j], svc)
  }

  /** A response for the service was delivered after the last key was stored for it. */
  ghost predicate TakenLast(run: seq<Event>, svc: string) {
    exists i :: TakenAt(run, i, svc) && NoStoreSince(run, i, svc)
  }

  ghost predicate TakenAt(run: seq<Event>, i: int, svc: string) {
    0 <= i < |run| && Takes(Exec(run[..i]), run[i], svc)
  }

  lemma SlotEmptyStep(s: State, e: Event, svc: string)
    requires Enabled(s, e)
    ensures svc !in Step(s, e).slots <==> Takes(s, e, svc) || (svc !in s.slots && !Stores(e, svc))
  {
  }

  lemma TakenAtSnoc(run: seq<Event>, i: int, svc: string)
    requires run != []
    ensures var before, e := run[..|run| - 1], run[|run| - 1];
            && (i < |before| ==> (TakenAt(run, i, svc) <==> TakenAt(before, i, svc)))
            && (TakenAt(run, |before|, svc) <==> Takes(Exec(before), e, svc))
  {
    var before := run[..|run| - 1];
    assert run[..|before|] == before;
    assert 0 <= i < |before| ==> before[..i] == run[..i];
  }

  lemma NoStoreSinceSnoc(run: seq<Event>, i: int, svc: string)
    requires run != [] && i < |run| - 1
    ensures NoStoreSince(run, i, svc) <==>
            NoStoreSince(run[..|run| - 1], i, svc) && !Stores(run[|run| - 1], svc)
  {
    var before := run[..|run| - 1];
    assert forall j :: 0 <= j < |before| ==> before[j] == run[j];
    if NoStoreSince(run, i, svc) {
      assert !Stores(run[|run| - 1], svc);
    }
  }

  lemma TakenLastSnoc(run: seq<Event>, svc: string)
    requires run != []
    ensures var before, e := run[..|run| - 1], run[|run| - 1];
            TakenLast(run, svc) <==> Takes(Exec(before), e, svc) || (TakenLast(before, svc) && !Stores(e, svc))
  {
    var before, e := run[..|run| - 1], run[|run| - 1];
    TakenAtSnoc(run, |before|, svc);
    if Takes(Exec(before), e, svc) {
      assert NoStoreSince(run, |before|, svc);
    } else if TakenLast(run, svc) {
      var i :| TakenAt(run, i, svc) && NoStoreSince(run, i, svc);
      TakenAtSnoc(run, i, svc);
      NoStoreSinceSnoc(run, i, svc);
    } else if TakenLast(before, svc) {
      var i :| TakenAt(before, i, svc) && NoStoreSince(before, i, svc);
      TakenAtSnoc(run, i, svc);
      NoStoreSinceSnoc(run, i, svc);
    }
  }

  /** In every run, the slot of a service is empty exactly when nothing was ever stored for it or a response
      for it was delivered since the last store. */
  lemma {:induction false} SlotEmptyIff(run: seq<Event>, svc: string)
    requires IsRun(run)
    ensures svc !in Exec(run).slots <==> NoStoreSince(run, -1, svc) || TakenLast(run, svc)
  {
    if run != [] {
      var before, e := run[..|run| - 1], run[|run| - 1];
      SlotEmptyIff(before, svc);
      SlotEmptyStep(Exec(before), e, svc);
      TakenLastSnoc(run, svc);
      NoStoreSinceSnoc(run, -1, svc);
    }
  }

  lemma {:induction false} RequestWasStored(run: seq<Event>, k: Key)
    requires IsRun(run) && k in Exec(run).flight
    ensures !NoStoreSince(run, -1, Exec(run).flight[k].service)
  {
    var before, e := run[..|run| - 1], run[|run| - 1];
    var svc := Exec(run).flight[k].service;
    NoStoreSinceSnoc(run, -1, svc);
    if k in Exec(before).flight && Exec(before).flight[k].service == svc {
      RequestWasStored(before, k);
    }
  }

  /** In every run, the answer to a request for a named service is installed in the legacy form if and only
      if another response for that service was delivered after the last key was stored for it. */
  lemma LegacyIff(run: seq<Event>, k: Key)
    requires IsRun(run) && Enabled(Exec(run), Receive(k)) && Exec(run).flight[k].service != ""
    ensures var s, svc := Exec(run), Exec(run).flight[k].service;
            Step(s, Receive(k)).installed == s.installed + [Legacy(svc, k)] <==> TakenLast(run, svc)
  {
    var s, svc := Exec(run), Exec(run).flight[k].service;
    var r := s.flight[k].stage.response;
    AlwaysSound(run);
    SlotEmptyIff(run, svc);
    RequestWasStored(run, k);
    DeliveryIff(s, Receive(k), r, svc);
    var s' := Step(s, Receive(k));
    assert s'.installed == s.installed + [s'.installed[|s.installed|]];
  }

  /** The run of `OverlapMispairs` goes on: the second answer finds the slot empty. */
  lemma OverlapThenLegacy() returns (run: seq<Event>)
    ensures IsRun(run) && Exec(run).installed == [Split("web", 1, 0), Legacy("web", 1)]
  {
    run := OverlapMispairs();
    Snoc(run, Send(1, true));
    run := run + [Send(1, true)];
    var r := Response("web", None, true, true, 1);
    Snoc(run, Serve(1, r));
    run := run + [Serve(1, r)];
    Snoc(run, Receive(1));
    run := run + [Receive(1)];
  }
}
