/** The DNS filter of the routing service: begin_smart_dns_block and end_smart_dns_block. */
module DnsBlock {
  import opened Bytes

  /** A DWORD status code; 0 is success. */
  type Status = n: nat | n < 0x1_0000_0000

  /** A status code seen as an int. */
  function AsInt(code: Status): (r: CInt)
    ensures r % 0x1_0000_0000 == code
  {
    if code < 0x8000_0000 then code else code - 0x1_0000_0000
  }

  /** What the calls into the system answer: the adapter list with its status, and the status of each call into
      the filtering platform, with the handle and the filter ids it hands out. */
  datatype Answers = Answers(
    list: Status, adapters: seq<string>, open: Status, handle: nat, sublayer: Status, block: Status, blockId: nat,
    permit: Status, permitId: nat)

  /** A closed filter can be installed for the device. */
  predicate Installs(w: Answers, device: string) {
    w.list == 0 && device in w.adapters && w.open == 0 && w.sublayer == 0 && w.block == 0 && w.permit == 0
  }

  /** The globals of the filter.  Every call into the filtering platform may fail; the ghost fields say what
      the platform holds for the session. */
  class Blocker {
    var engine: Option<nat>
    var filterId: nat
    var filterId2: nat

    /** How many sessions have been opened and closed so far. */
    ghost var sessionsOpened: nat
    ghost var sessionsClosed: nat
    /** What is installed in the open session. */
    ghost var sublayer: bool
    ghost var blocking: bool
    ghost var permitting: bool

    constructor ()
      ensures Valid() && engine.None?
    {
      engine, filterId, filterId2 := None, 0, 0;
      sessionsOpened, sessionsClosed := 0, 0;
      sublayer, blocking, permitting := false, false, false;
    }

    /** Between calls the filter is complete or absent, and at most one session is open. */
    ghost predicate Valid()
      reads this
    {
      && sessionsOpened == sessionsClosed + (if engine.Some? then 1 else 0)
      && sublayer == blocking == permitting == engine.Some?
      && (engine.None? ==> filterId == 0 && filterId2 == 0)
    }

    /** FwpmFilterDeleteById0, FwpmSubLayerDeleteByKey0: may fail, and the result is ignored. */
    method DeleteFilters()
      modifies this`blocking, this`permitting, this`sublayer
      ensures (blocking ==> old(blocking)) && (permitting ==> old(permitting)) && (sublayer ==> old(sublayer))
    {
      if filterId != 0 {
        var done: bool := *;
        if done {
          blocking := false;
        }
      }
      if filterId2 != 0 {
        var done: bool := *;
        if done {
          permitting := false;
        }
      }
      var done: bool := *;
      if done {
        sublayer := false;
      }
    }

    /** end_smart_dns_block: closing the dynamic session removes whatever is left in it. */
    method End()
      requires sessionsOpened == sessionsClosed + (if engine.Some? then 1 else 0)
      requires engine.None? ==> !sublayer && !blocking && !permitting
      modifies this
      ensures Valid() && engine.None? && sessionsOpened == old(sessionsOpened)
    {
      if engine.Some? {
        DeleteFilters();
        sublayer, blocking, permitting := false, false, false;
        sessionsClosed := sessionsClosed + 1;
      }
      filterId, filterId2 := 0, 0;
      engine := None;
    }

    /** The position of the adapter with the given name, or the length of the list. */
    method FindAdapter(names: seq<string>, device: string) returns (k: nat)
      ensures k <= |names| && (forall j | 0 <= j < k :: names[j] != device) && (k < |names| ==> names[k] == device)
    {
      k := 0;
      while k < |names| && names[k] != device
        invariant k <= |names| && forall j | 0 <= j < k :: names[j] != device
      {
        k := k + 1;
      }
    }

    /** Opens the session and installs the sublayer and both filters; stops at the first failure. */
    method Install(w: Answers) returns (result: Status)
      requires Valid() && engine.None?
      modifies this
      ensures result == if w.open != 0 then w.open else if w.sublayer != 0 then w.sublayer
                        else if w.block != 0 then w.block else w.permit
      ensures sessionsOpened == sessionsClosed + (if engine.Some? then 1 else 0)
      ensures engine.None? ==> !sublayer && !blocking && !permitting
      ensures result == 0 ==> engine == Some(w.handle) && sublayer && blocking && permitting
      ensures result == 0 ==> filterId == w.blockId && filterId2 == w.permitId
      ensures engine.None? ==> sessionsOpened == old(sessionsOpened)
    {
      result := w.open;
      if result != 0 {
        return;
      }
      engine := Some(w.handle);
      sessionsOpened := sessionsOpened + 1;
      result := w.sublayer;
      if result != 0 {
        return;
      }
      sublayer := true;
      result := w.block;
      if result != 0 {
        return;
      }
      filterId := w.blockId;
      blocking := true;
      result := w.permit;
      if result != 0 {
        return;
      }
      filterId2 := w.permitId;
      permitting := true;
    }

    /** begin_smart_dns_block: an open filter is kept; otherwise it is installed completely or rolled back. */
    method Begin(device: string, w: Answers) returns (result: CInt)
      requires Valid()
      modifies this
      ensures Valid()
      ensures result == 0 <==> engine.Some?
      ensures engine.Some? <==> old(engine.Some?) || Installs(w, device)
      ensures old(engine.Some?) ==> engine == old(engine) && sessionsOpened == old(sessionsOpened)
      ensures old(engine.None?) && engine.Some? ==>
                engine == Some(w.handle) && filterId == w.blockId && filterId2 == w.permitId
      ensures engine.Some?
              <==> || old(engine.Some?)
                   || (&& w.list == 0 && (exists k: nat :: k < |w.adapters| && w.adapters[k] == device)
                       && w.open == 0 && w.sublayer == 0 && w.block == 0 && w.permit == 0)
      ensures result % 0x1_0000_0000
              == if old(engine.Some?) then 0 else if w.list != 0 then w.list
                 else if device !in w.adapters then 0xFFFF_FFFF
                 else if w.open != 0 then w.open else if w.sublayer != 0 then w.sublayer
                 else if w.block != 0 then w.block else w.permit
    {
      if engine.Some? {
        return 0;
      }
      var code := w.list;
      if code == 0 {
        var k := FindAdapter(w.adapters, device);
        if k == |w.adapters| {
          code := 0xFFFF_FFFF;
        } else {
          code := Install(w);
        }
      }
      if code != 0 {
        End();
      }
      return AsInt(code);
    }
  }
}
