/**
 The AIS vessel store: its critical sections as methods on a mutable object.

 Each method is proved against a function on the maps it touches. The same
 functions are the steps of the interleaved protocol in AisProtocol.
 */
module AisStore {
  import opened Options
  import opened Json
  import opened AisVessel

  const AIS_TIMEOUT: Time := 180_000_000_000
  const BROADCAST_DELAY: Time := 100_000_000

  /** One message to clients: the new value of the path of one vessel. */
  datatype Delta = Delta(mmsi: string, api: VesselApi)

  type Vessels = map<string, AisVessel>
  type Pending = map<string, Time>

  // ----- The critical sections, as functions

  predicate IsDigit(c: char) {
    '0' <= c <= '9'
  }

  function TakeDigits(s: string): (digits: string)
    ensures digits <= s && forall c <- digits :: IsDigit(c)
    ensures |digits| < |s| ==> !IsDigit(s[|digits|])
  {
    if s == "" || !IsDigit(s[0]) then "" else [s[0]] + TakeDigits(s[1..])
  }

  /** The digits after the first "mmsi:" of a context, if there are any. */
  function ExtractMmsi(context: string): Option<string> {
    if |context| < 5 then None
    else if context[..5] == "mmsi:" then
      var digits := TakeDigits(context[5..]);
      if digits == "" then None else Some(digits)
    else ExtractMmsi(context[1..])
  }

  function Entry(vessels: Vessels, mmsi: string, now: Time): AisVessel {
    if mmsi in vessels then vessels[mmsi] else NewVessel(mmsi, now)
  }

  function UpdatedVessel(vessels: Vessels, mmsi: string, message: Json, now: Time): AisVessel {
    ApplyAll(Entry(vessels, mmsi, now).(lastUpdate := now), WritesOf(message))
  }

  predicate UpdateChanges(vessels: Vessels, mmsi: string, message: Json, now: Time) {
    AnyChange(Entry(vessels, mmsi, now).(lastUpdate := now), WritesOf(message))
  }

  /** An entry that is already there keeps its time, so that rapid updates coalesce. */
  function Scheduled(pending: Pending, mmsi: string, now: Time): Pending {
    if mmsi in pending then pending else pending[mmsi := now + BROADCAST_DELAY]
  }

  function Due(pending: Pending, now: Time): set<string> {
    set m | m in pending && pending[m] <= now
  }

  function TimedOut(vessels: Vessels, now: Time): set<string> {
    set m | m in vessels && vessels[m].status == Active && vessels[m].lastUpdate + AIS_TIMEOUT < now
  }

  /** The order in which a hash map hands out its keys is arbitrary. */
  ghost predicate Enumerates(keys: seq<string>, s: set<string>) {
    (forall m :: m in keys <==> m in s) &&
    (forall i, j :: 0 <= i < j < |keys| ==> keys[i] != keys[j])
  }

  function Without<V>(m: map<string, V>, keys: seq<string>): map<string, V> {
    map k | k in m && k !in keys :: m[k]
  }

  /** The messages for those of the vessels that are stored, in order. */
  function Broadcasts(vessels: Vessels, keys: seq<string>): seq<Delta> {
    if keys == [] then []
    else
      Broadcasts(vessels, keys[..|keys| - 1]) +
      var m := keys[|keys| - 1];
      if m in vessels then [Delta(vessels[m].mmsi, Api(vessels[m]))] else []
  }

  function LostVessels(vessels: Vessels, keys: seq<string>): Vessels {
    map m | m in vessels :: if m in keys then vessels[m].(status := Lost) else vessels[m]
  }

  function ActiveKeys(vessels: Vessels): set<string> {
    set m | m in vessels && vessels[m].status == Active
  }

  /** The list shows the vessels of these keys, in order. */
  ghost predicate Shows(active: seq<VesselApi>, keys: seq<string>, vessels: Vessels) {
    |active| == |keys| && forall i :: 0 <= i < |keys| ==> keys[i] in vessels && active[i] == Api(vessels[keys[i]])
  }

  // ----- Facts about broadcasting

  lemma {:induction false} BroadcastOnlyStored(vessels: Vessels, keys: seq<string>, d: Delta)
    requires d in Broadcasts(vessels, keys)
    ensures exists m :: m in keys && m in vessels && d == Delta(vessels[m].mmsi, Api(vessels[m]))
  {
    var m := keys[|keys| - 1];
    if d in Broadcasts(vessels, keys[..|keys| - 1]) {
      BroadcastOnlyStored(vessels, keys[..|keys| - 1], d);
    } else {
      assert m in keys && m in vessels;
    }
  }

  lemma {:induction false} BroadcastAllStored(vessels: Vessels, keys: seq<string>, m: string)
    requires m in keys && m in vessels
    ensures Delta(vessels[m].mmsi, Api(vessels[m])) in Broadcasts(vessels, keys)
  {
    if m != keys[|keys| - 1] {
      BroadcastAllStored(vessels, keys[..|keys| - 1], m);
    }
  }

  predicate MarkAt(context: string, i: nat) {
    i + 5 <= |context| && context[i..i + 5] == "mmsi:"
  }

  /** A context names the vessel whose digits follow its first "mmsi:", if any do. */
  lemma {:induction false} ExtractMmsiFindsFirst(context: string, i: nat)
    requires MarkAt(context, i) && forall j: nat :: j < i ==> !MarkAt(context, j)
    ensures ExtractMmsi(context) ==
            var digits := TakeDigits(context[i + 5..]);
            if digits == "" then None else Some(digits)
  {
    assert context[0..5] == context[..5];
    if i > 0 {
      assert !MarkAt(context, 0);
      var rest := context[1..];
      forall j: nat | j < |context| ensures MarkAt(rest, j) == MarkAt(context, j + 1) {
        if j + 5 <= |rest| {
          assert rest[j..j + 5] == context[j + 1..j + 1 + 5];
        }
      }
      ExtractMmsiFindsFirst(rest, i - 1);
      assert rest[i - 1 + 5..] == context[i + 5..];
    }
  }

  predicate OccursAt(word: string, text: string, i: nat) {
    i + |word| <= |text| && text[i..i + |word|] == word
  }

  predicate IsDecimal(c: char) {
    c in "0123456789"
  }

  lemma DigitIsDecimal(c: char)
    ensures IsDigit(c) <==> IsDecimal(c)
  {
    if IsDigit(c) {
      var n := c as int - '0' as int;
      assert "0123456789"[n] == c;
    }
  }

  lemma {:induction false} TakesDecimals(digits: string, rest: string)
    requires (forall c <- digits :: IsDecimal(c)) && (rest != "" ==> !IsDecimal(rest[0]))
    ensures TakeDigits(digits + rest) == digits
  {
    hide IsDecimal, IsDigit;
    if digits == "" {
      assert digits + rest == rest;
      if rest != "" {
        DigitIsDecimal(rest[0]);
      }
    } else {
      DigitIsDecimal(digits[0]);
      TakesDecimals(digits[1..], rest);
      assert (digits + rest)[1..] == digits[1..] + rest;
    }
  }

  /** The decimals after the first "mmsi:", however the context goes on, are the vessel's; none is no vessel. */
  lemma ExtractMmsiReads(prefix: string, digits: string, rest: string)
    requires forall c <- digits :: IsDecimal(c)
    requires rest != "" ==> !IsDecimal(rest[0])
    requires var context := prefix + "mmsi:" + digits + rest;
             forall j: nat :: j < |prefix| ==> !OccursAt("mmsi:", context, j)
    ensures ExtractMmsi(prefix + "mmsi:" + digits + rest) == if digits == "" then None else Some(digits)
  {
    hide IsDecimal, ExtractMmsi, TakeDigits;
    var context, i := prefix + "mmsi:" + digits + rest, |prefix|;
    assert context[i..i + 5] == "mmsi:" && context[i + 5..] == digits + rest;
    forall j: nat | j < i ensures !MarkAt(context, j) {
      assert !OccursAt("mmsi:", context, j);
    }
    ExtractMmsiFindsFirst(context, i);
    TakesDecimals(digits, rest);
  }

  /** A context without any "mmsi:" names no vessel. */
  lemma {:induction false} ExtractMmsiWithoutMark(context: string)
    requires forall i: nat :: !MarkAt(context, i)
    ensures ExtractMmsi(context).None?
  {
    if |context| >= 5 {
      assert context[0..5] == context[..5] && !MarkAt(context, 0);
      var rest := context[1..];
      forall i: nat ensures !MarkAt(rest, i) {
        assert !MarkAt(context, i + 1);
        if i + 5 <= |rest| {
          assert rest[i..i + 5] == context[i + 1..i + 1 + 5];
        }
      }
      ExtractMmsiWithoutMark(rest);
    }
  }

  /** Before the first mark nothing has changed; after the last, what is removed is what was marked. */
  lemma MarkEnds(vessels: Vessels, keys: seq<string>)
    ensures LostVessels(vessels, []) == vessels && Broadcasts(LostVessels(vessels, keys), []) == []
    ensures Without(LostVessels(vessels, keys), keys) == Without(vessels, keys)
  {
  }

  /** One more vessel marked lost, and told to clients as it is at the end. */
  lemma MarkNext(vessels: Vessels, keys: seq<string>, i: nat)
    requires i < |keys|
    ensures LostVessels(vessels, keys[..i]).Keys == vessels.Keys == LostVessels(vessels, keys).Keys
    ensures keys[i] !in vessels ==>
              && LostVessels(vessels, keys[..i + 1]) == LostVessels(vessels, keys[..i])
              && Broadcasts(LostVessels(vessels, keys), keys[..i + 1]) ==
                 Broadcasts(LostVessels(vessels, keys), keys[..i])
    ensures keys[i] in vessels ==>
              var v := LostVessels(vessels, keys[..i])[keys[i]].(status := Lost);
              && LostVessels(vessels, keys[..i + 1]) == LostVessels(vessels, keys[..i])[keys[i] := v]
              && Broadcasts(LostVessels(vessels, keys), keys[..i + 1]) ==
                 Broadcasts(LostVessels(vessels, keys), keys[..i]) + [Delta(v.mmsi, Api(v))]
  {
    hide Api;
    assert keys[..i + 1][..i] == keys[..i];
    assert keys[..i + 1] == keys[..i] + [keys[i]];
  }

  /** The store. The broadcast channel is the sequence of everything sent on it. */
  class AisVesselStore {
    var vessels: Vessels
    var pending: Pending
    var sent: seq<Delta>

    constructor ()
      ensures vessels == map[] && pending == map[] && sent == []
    {
      vessels, pending, sent := map[], map[], [];
    }

    /** First half of `update`: under the vessels lock, the fields of one vessel. */
    method UpdateFields(mmsi: string, message: Json, now: Time) returns (changed: bool)
      modifies this`vessels
      ensures vessels == old(vessels)[mmsi := UpdatedVessel(old(vessels), mmsi, message, now)]
      ensures changed == UpdateChanges(old(vessels), mmsi, message, now)
      ensures var before := if mmsi in old(vessels) then old(vessels)[mmsi]
                            else AisVessel(mmsi, None, None, Dimensions(None, None, None, None), None, None, None,
                                           Active, now);
              && IsToldBy(before, Entries(message), vessels[mmsi]) && vessels[mmsi].lastUpdate == now
              && (changed <==> SomeNews(before, Entries(message)))
    {
      hide IsToldBy, SomeNews, ApplyAll, AnyChange, WritesOf, Entries;
      var v;
      v, changed := UpdateFromSignalK(Entry(vessels, mmsi, now), message, now);
      vessels := vessels[mmsi := v];
    }

    /** Second half of `update`: still under the vessels lock, the pending map. */
    method ScheduleBroadcast(mmsi: string, now: Time)
      modifies this`pending
      ensures pending == Scheduled(old(pending), mmsi, now)
      ensures pending == if mmsi in old(pending) then old(pending) else old(pending)[mmsi := now + 100_000_000]
    {
      if mmsi !in pending {
        pending := pending[mmsi := now + BROADCAST_DELAY];
      }
    }

    /** `update` as a whole, when nothing comes between its halves. */
    method Update(context: string, message: Json, now: Time, later: Time) returns (changed: bool)
      modifies this`vessels, this`pending
      ensures ExtractMmsi(context).None? ==>
                !changed && vessels == old(vessels) && pending == old(pending)
      ensures ExtractMmsi(context).Some? ==>
                var mmsi := ExtractMmsi(context).value;
                && changed == UpdateChanges(old(vessels), mmsi, message, now)
                && vessels == old(vessels)[mmsi := UpdatedVessel(old(vessels), mmsi, message, now)]
                && pending == if changed then Scheduled(old(pending), mmsi, later) else old(pending)
    {
      var mmsi := ExtractMmsi(context);
      if mmsi.None? { return false; }
      changed := UpdateFields(mmsi.value, message, now);
      if changed {
        ScheduleBroadcast(mmsi.value, later);
      }
    }

    /** First section of `flush_pending_broadcasts`. */
    method CollectDue(now: Time) returns (keys: seq<string>)
      ensures Enumerates(keys, Due(pending, now))
      ensures forall m :: m in keys <==> m in pending && pending[m] <= now
    {
      keys := [];
      var todo := pending.Keys;
      while todo != {}
        invariant todo <= pending.Keys
        invariant Enumerates(keys, Due(pending, now) - todo)
      {
        var m :| m in todo;
        if pending[m] <= now {
          keys := keys + [m];
        }
        todo := todo - {m};
      }
    }

    /** Second section of `flush_pending_broadcasts`. */
    method RemovePending(keys: seq<string>)
      modifies this`pending
      ensures pending == Without(old(pending), keys)
      ensures pending == map m | m in old(pending) && m !in keys :: old(pending)[m]
    {
      for i := 0 to |keys|
        invariant pending == Without(old(pending), keys[..i])
      {
        pending := pending - {keys[i]};
        assert keys[..i + 1] == keys[..i] + [keys[i]];
      }
      assert keys[..|keys|] == keys;
    }

    /** Third section of `flush_pending_broadcasts`. */
    method BroadcastVessels(keys: seq<string>)
      modifies this`sent
      ensures sent == old(sent) + Broadcasts(vessels, keys)
    {
      for i := 0 to |keys|
        invariant sent == old(sent) + Broadcasts(vessels, keys[..i])
      {
        assert keys[..i + 1][..i] == keys[..i];
        if keys[i] in vessels {
          var v := vessels[keys[i]];
          sent := sent + [Delta(v.mmsi, Api(v))];
        }
      }
      assert keys[..|keys|] == keys;
    }

    /** First section of `check_timeouts`. */
    method CollectTimedOut(now: Time) returns (keys: seq<string>)
      ensures Enumerates(keys, TimedOut(vessels, now))
      ensures forall m :: m in keys <==>
                m in vessels && vessels[m].status == Active && now - vessels[m].lastUpdate > 180_000_000_000
    {
      keys := [];
      var todo := vessels.Keys;
      while todo != {}
        invariant todo <= vessels.Keys
        invariant Enumerates(keys, TimedOut(vessels, now) - todo)
      {
        var m :| m in todo;
        if vessels[m].status == Active && vessels[m].lastUpdate + AIS_TIMEOUT < now {
          keys := keys + [m];
        }
        todo := todo - {m};
      }
    }

    /** Second section of `check_timeouts`: one loop marks and broadcasts, a second removes. */
    method DropLost(keys: seq<string>)
      modifies this`vessels, this`sent
      ensures vessels == Without(old(vessels), keys)
      ensures sent == old(sent) + Broadcasts(LostVessels(old(vessels), keys), keys)
    {
      hide Api, LostVessels, Broadcasts;
      ghost var stored, marked := vessels, LostVessels(vessels, keys);
      MarkEnds(stored, keys);
      assert keys[..0] == [];
      for i := 0 to |keys|
        invariant vessels == LostVessels(stored, keys[..i]) && vessels.Keys == stored.Keys
        invariant sent == old(sent) + Broadcasts(marked, keys[..i])
      {
        MarkNext(stored, keys, i);
        if keys[i] in vessels {
          vessels := vessels[keys[i] := vessels[keys[i]].(status := Lost)];
          sent := sent + [Delta(vessels[keys[i]].mmsi, Api(vessels[keys[i]]))];
        }
      }
      assert keys[..|keys|] == keys;
      RemoveVessels(keys);
    }

    method RemoveVessels(keys: seq<string>)
      modifies this`vessels
      ensures vessels == Without(old(vessels), keys)
    {
      for i := 0 to |keys|
        invariant vessels == Without(old(vessels), keys[..i])
      {
        vessels := vessels - {keys[i]};
        assert keys[..i + 1] == keys[..i] + [keys[i]];
      }
      assert keys[..|keys|] == keys;
    }

    /** What a client is sent when it connects: every stored vessel with status Active, once each. */
    method GetAllActive() returns (active: seq<VesselApi>)
      ensures exists keys: seq<string> ::
                && Enumerates(keys, set m | m in vessels && vessels[m].status == Active)
                && Shows(active, keys, vessels)
    {
      active := [];
      ghost var keys: seq<string> := [];
      var todo := vessels.Keys;
      while todo != {}
        invariant todo <= vessels.Keys
        invariant Enumerates(keys, ActiveKeys(vessels) - todo) && Shows(active, keys, vessels)
      {
        var m :| m in todo;
        if vessels[m].status == Active {
          active, keys := active + [Api(vessels[m])], keys + [m];
        }
        todo := todo - {m};
      }
      assert ActiveKeys(vessels) - todo == ActiveKeys(vessels);
    }
  }
}
