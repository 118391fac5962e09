/** One-time sign-in codes. The table keeps its entries in the order they were minted, as the
    dictionary does; codes come from the caller because they are drawn at random. */
module LocalLogin {
  import opened Options

  datatype Entry = Entry(code: string, token: string, expires: real, landing: Landing)

  type Codes = seq<Entry>

  const MAX_PENDING := 8

  /** The keys of the table of landing pages, and any other text a caller may pass. */
  datatype Landing = Console | Welcome | Unknown(text: string)

  function LandingPage(landing: Landing): Option<string> {
    match landing
    case Console => Some("/console")
    case Welcome => Some("/welcome")
    case Unknown(_) => None
  }

  function Unexpired(codes: Codes, now: real): Codes {
    if codes == [] then []
    else
      var rest := Unexpired(codes[..|codes| - 1], now);
      if codes[|codes| - 1].expires <= now then rest else rest + [codes[|codes| - 1]]
  }

  /** min(): the first entry that expires no later than any other. */
  function Oldest(codes: Codes): (i: nat)
    requires codes != []
    ensures i < |codes|
  {
    if |codes| == 1 then 0
    else
      var i := Oldest(codes[..|codes| - 1]);
      if codes[|codes| - 1].expires < codes[i].expires then |codes| - 1 else i
  }

  function RemoveAt(codes: Codes, i: nat): Codes
    requires i < |codes|
  {
    codes[..i] + codes[i + 1..]
  }

  /** What stays of the table to make room for one more code. */
  function Room(codes: Codes, now: real): Codes {
    var live := Unexpired(codes, now);
    if |live| >= MAX_PENDING then RemoveAt(live, Oldest(live)) else live
  }

  /** The table after minting; an unknown landing page raises before anything happens. */
  function Minted(codes: Codes, token: string, landing: Landing, now: real, code: string): Codes {
    if LandingPage(landing).None? then codes
    else Room(codes, now) + [Entry(code, token, now + 60.0, landing)]
  }

  function Position(codes: Codes, code: string): (i: nat)
    ensures i <= |codes| && (i < |codes| ==> codes[i].code == code)
    ensures i == |codes| ==> forall k :: 0 <= k < |codes| ==> codes[k].code != code
  {
    if codes == [] || codes[0].code == code then 0 else 1 + Position(codes[1..], code)
  }

  function Redeemed(codes: Codes, code: string): Codes {
    var i := Position(codes, code);
    if i < |codes| then RemoveAt(codes, i) else codes
  }

  /** What redeeming hands over: the token and the page to land on. */
  function Yield(codes: Codes, code: string, now: real): Option<(string, Option<string>)> {
    var i := Position(codes, code);
    if i == |codes| || codes[i].expires <= now then None
    else Some((codes[i].token, LandingPage(codes[i].landing)))
  }

  // ---- Runs ------------------------------------------------------------------------------

  datatype Event =
    | Mint(token: string, landing: Landing, now: real, code: string)
    | Redeem(code: string, now: real)

  function Step(codes: Codes, e: Event): Codes {
    match e
    case Mint(token, landing, now, code) => Minted(codes, token, landing, now, code)
    case Redeem(code, _) => Redeemed(codes, code)
  }

  /** The table before the n-th event of a run that starts empty. */
  function Table(run: seq<Event>, n: nat): Codes
    requires n <= |run|
  {
    if n == 0 then [] else Step(Table(run, n - 1), run[n - 1])
  }

  predicate Mints(e: Event) {
    e.Mint? && LandingPage(e.landing).Some?
  }

  /** What the n-th event yields, when it redeems a code. */
  function YieldAt(run: seq<Event>, n: nat): Option<(string, Option<string>)>
    requires n < |run| && run[n].Redeem?
  {
    Yield(Table(run, n), run[n].code, run[n].now)
  }

  /** The clock does not go back, and no code is drawn twice. */
  ghost predicate Proper(run: seq<Event>) {
    forall n: nat :: n < |run| ==> ProperAt(run, n)
  }

  predicate ProperAt(run: seq<Event>, n: nat)
    requires n < |run|
  {
    forall i :: 0 <= i < n ==>
      run[i].now <= run[n].now && (run[i].Mint? && run[n].Mint? ==> run[i].code != run[n].code)
  }

  ghost predicate Ordered(codes: Codes) {
    (forall a, b :: 0 <= a < b < |codes| ==> codes[a].expires <= codes[b].expires)
    && forall a, b :: 0 <= a < b < |codes| ==> codes[a].code != codes[b].code
  }

  ghost predicate AllMade(run: seq<Event>, n: nat, codes: Codes)
    requires n <= |run|
  {
    forall entry :: entry in codes ==> exists i :: 0 <= i < n && MadeBy(entry, run[i])
  }

  /** Entries in minting order with distinct codes, each made by one of the first n events. */
  ghost predicate Sound(run: seq<Event>, n: nat, codes: Codes)
    requires n <= |run|
  {
    |codes| <= MAX_PENDING && Ordered(codes) && AllMade(run, n, codes)
  }

  predicate MadeBy(entry: Entry, e: Event) {
    Mints(e) && entry == Entry(e.code, e.token, e.now + 60.0, e.landing)
  }

  lemma {:induction false} AllExpired(codes: Codes, now: real)
    requires forall a :: 0 <= a < |codes| ==> codes[a].expires <= now
    ensures Unexpired(codes, now) == []
  {
    if codes != [] {
      AllExpired(codes[..|codes| - 1], now);
    }
  }

  lemma {:induction false} UnexpiredKeeps(codes: Codes, now: real) returns (k: nat)
    requires Ordered(codes)
    ensures k <= |codes| && Unexpired(codes, now) == codes[k..]
    ensures forall a :: 0 <= a < |codes| ==> (a < k <==> codes[a].expires <= now)
  {
    if codes == [] {
      k := 0;
    } else if codes[|codes| - 1].expires <= now {
      AllExpired(codes, now);
      k := |codes|;
    } else {
      k := UnexpiredKeeps(codes[..|codes| - 1], now);
      assert codes[k..] == codes[..|codes| - 1][k..] + [codes[|codes| - 1]];
    }
  }

  lemma {:induction false} OldestIsFirst(codes: Codes)
    requires codes != []
    requires forall a, b :: 0 <= a < b < |codes| ==> codes[a].expires <= codes[b].expires
    ensures Oldest(codes) == 0
  {
    if |codes| > 1 {
      OldestIsFirst(codes[..|codes| - 1]);
    }
  }

  /** Minting drops a leading stretch of the table: what has expired, and the oldest entry when
      eight are still pending. */
  lemma MintDropsFront(codes: Codes, e: Event) returns (k: nat)
    requires Ordered(codes) && |codes| <= MAX_PENDING && Mints(e)
    ensures k <= |codes| && Step(codes, e) == codes[k..] + [Entry(e.code, e.token, e.now + 60.0, e.landing)]
    ensures k > 0 ==> codes[k - 1].expires <= e.now || |codes| - k == MAX_PENDING - 1
    ensures |codes| - k <= MAX_PENDING - 1
  {
    k := RoomIsTail(codes, e.now);
  }

  lemma RoomIsTail(codes: Codes, now: real) returns (k: nat)
    requires Ordered(codes) && |codes| <= MAX_PENDING
    ensures k <= |codes| && Room(codes, now) == codes[k..] && |codes| - k <= MAX_PENDING - 1
    ensures k > 0 ==> codes[k - 1].expires <= now || |codes| - k == MAX_PENDING - 1
  {
    var u := UnexpiredKeeps(codes, now);
    if |codes| - u >= MAX_PENDING {
      RoomWhenFull(codes, now, u);
      k := u + 1;
    } else {
      k := u;
    }
  }

  lemma RoomWhenFull(codes: Codes, now: real, u: nat)
    requires Ordered(codes) && |codes| <= MAX_PENDING && u <= |codes| - MAX_PENDING
    requires Unexpired(codes, now) == codes[u..]
    ensures Room(codes, now) == codes[u + 1..]
  {
    DropOldest(codes, u);
  }

  lemma DropOldest(codes: Codes, k: nat)
    requires Ordered(codes) && k < |codes|
    ensures RemoveAt(codes[k..], Oldest(codes[k..])) == codes[k + 1..]
  {
    OldestIsFirst(codes[k..]);
  }

  lemma MadeEarlier(run: seq<Event>, n: nat, codes: Codes)
    requires n < |run| && AllMade(run, n, codes)
    ensures AllMade(run, n + 1, codes)
  {
    forall entry | entry in codes ensures exists i :: 0 <= i < n + 1 && MadeBy(entry, run[i]) {
      var i :| 0 <= i < n && MadeBy(entry, run[i]);
    }
  }

  /** A younger entry may go behind any tail of the table. */
  lemma AppendOrdered(codes: Codes, k: nat, entry: Entry)
    requires Ordered(codes) && k <= |codes|
    requires forall other :: other in codes ==> other.expires <= entry.expires && other.code != entry.code
    ensures Ordered(codes[k..] + [entry])
    ensures forall other :: other in codes[k..] + [entry] ==> other in codes || other == entry
  {
    forall a | k <= a < |codes| ensures codes[a].expires <= entry.expires && codes[a].code != entry.code {
      assert codes[a] in codes;
    }
  }

  lemma RemoveOrdered(codes: Codes, i: nat)
    requires Ordered(codes) && i < |codes|
    ensures Ordered(RemoveAt(codes, i))
    ensures forall other :: other in RemoveAt(codes, i) <==> other in codes && other.code != codes[i].code
  {
    var rest := RemoveAt(codes, i);
    assert forall a :: 0 <= a < |rest| ==> rest[a] == codes[if a < i then a else a + 1];
    forall other | other in codes && other.code != codes[i].code ensures other in rest {
      var a :| 0 <= a < |codes| && codes[a] == other;
      assert rest[if a < i then a else a - 1] == other;
    }
  }

  lemma MintSound(run: seq<Event>, n: nat, codes: Codes)
    requires n < |run| && ProperAt(run, n) && Sound(run, n, codes) && Mints(run[n])
    ensures Sound(run, n + 1, Step(codes, run[n]))
  {
    var e := run[n];
    var made := Entry(e.code, e.token, e.now + 60.0, e.landing);
    var k := MintDropsFront(codes, e);
    assert MadeBy(made, run[n]);
    forall other | other in codes ensures other.expires <= made.expires && other.code != made.code {
      var i :| 0 <= i < n && MadeBy(other, run[i]);
    }
    AppendOrdered(codes, k, made);
    MadeEarlier(run, n, codes);
  }

  lemma RedeemSound(run: seq<Event>, n: nat, codes: Codes)
    requires n < |run| && Sound(run, n, codes) && run[n].Redeem?
    ensures Sound(run, n + 1, Step(codes, run[n]))
  {
    MadeEarlier(run, n, codes);
    if Position(codes, run[n].code) < |codes| {
      RemoveOrdered(codes, Position(codes, run[n].code));
    }
  }

  lemma {:induction false} TableSound(run: seq<Event>, n: nat)
    requires Proper(run) && n <= |run|
    ensures Sound(run, n, Table(run, n))
  {
    if n > 0 {
      assert ProperAt(run, n - 1);
      TableSound(run, n - 1);
      NextSound(run, n, Table(run, n - 1), Table(run, n));
    }
  }

  lemma NextSound(run: seq<Event>, n: nat, codes: Codes, after: Codes)
    requires 0 < n <= |run| && ProperAt(run, n - 1) && Sound(run, n - 1, codes) && after == Step(codes, run[n - 1])
    ensures Sound(run, n, after)
  {
    EventSound(run, n - 1, codes);
  }

  lemma EventSound(run: seq<Event>, n: nat, codes: Codes)
    requires n < |run| && ProperAt(run, n) && Sound(run, n, codes)
    ensures Sound(run, n + 1, Step(codes, run[n]))
  {
    if Mints(run[n]) {
      MintSound(run, n, codes);
    } else if run[n].Redeem? {
      RedeemSound(run, n, codes);
    } else {
      MadeEarlier(run, n, codes);
    }
  }

  /** At most eight codes are ever pending. */
  lemma AtMostEight(run: seq<Event>, n: nat)
    requires Proper(run) && n <= |run|
    ensures |Table(run, n)| <= 8
  {
    TableSound(run, n);
  }

  predicate Has(codes: Codes, code: string) {
    exists entry :: entry in codes && entry.code == code
  }

  lemma HasPosition(codes: Codes, code: string)
    ensures Has(codes, code) <==> Position(codes, code) < |codes|
  {
    var p := Position(codes, code);
    if p < |codes| {
      assert codes[p] in codes;
    }
  }

  lemma {:induction false} GoneStaysGone(run: seq<Event>, i: nat, n: nat, code: string)
    requires Proper(run) && i <= n <= |run| && !Has(Table(run, i), code)
    requires forall k :: i <= k < n && run[k].Mint? ==> run[k].code != code
    ensures !Has(Table(run, n), code)
    decreases n
  {
    if i < n {
      GoneStaysGone(run, i, n - 1, code);
      TableSound(run, n - 1);
      StepAddsOnlyMinted(Table(run, n - 1), run[n - 1]);
    }
  }

  lemma StepAddsOnlyMinted(codes: Codes, e: Event)
    requires Ordered(codes) && |codes| <= MAX_PENDING
    ensures forall entry :: entry in Step(codes, e) ==> entry in codes || MadeBy(entry, e)
  {
    if Mints(e) {
      var k := MintDropsFront(codes, e);
    } else if e.Redeem? && Position(codes, e.code) < |codes| {
      RemoveOrdered(codes, Position(codes, e.code));
    }
  }

  /** A code is minted before it is ever found. */
  lemma {:induction false} FoundWasMinted(run: seq<Event>, n: nat, code: string) returns (i: nat)
    requires Proper(run) && n <= |run|
    requires Position(Table(run, n), code) < |Table(run, n)|
    ensures i < n && run[i].code == code && MadeBy(Table(run, n)[Position(Table(run, n), code)], run[i])
  {
    TableSound(run, n);
    var codes := Table(run, n);
    assert codes[Position(codes, code)] in codes;
    i :| 0 <= i < n && MadeBy(Table(run, n)[Position(Table(run, n), code)], run[i]);
  }

  /** A yield hands over what some earlier minting put in, less than a minute after it. */
  lemma YieldsWhatWasMinted(run: seq<Event>, n: nat) returns (i: nat)
    requires Proper(run) && n < |run| && run[n].Redeem? && YieldAt(run, n).Some?
    ensures i < n && Mints(run[i]) && run[i].code == run[n].code && run[n].now < run[i].now + 60.0
    ensures YieldAt(run, n)
      == Some((run[i].token, Some(if run[i].landing.Console? then "/console" else "/welcome")))
  {
    i := FoundWasMinted(run, n, run[n].code);
  }

  lemma MintedOnce(run: seq<Event>, i: nat)
    requires Proper(run) && i < |run| && run[i].Mint?
    ensures forall k :: 0 <= k < |run| && run[k].Mint? && run[k].code == run[i].code ==> k == i
  {
    forall k | 0 <= k < |run| && run[k].Mint? && run[k].code == run[i].code ensures k == i {
      assert ProperAt(run, if k < i then i else k);
    }
  }

  /** A code that yielded once never yields again. */
  lemma YieldsOnce(run: seq<Event>, m: nat, n: nat)
    requires Proper(run) && m < n < |run| && run[m].Redeem? && run[n].Redeem? && run[m].code == run[n].code
    requires YieldAt(run, m).Some?
    ensures YieldAt(run, n).None?
  {
    var i := FoundWasMinted(run, m, run[m].code);
    RedeemRemoves(run, m);
    MintedOnce(run, i);
    GoneStaysGone(run, m + 1, n, run[m].code);
    HasPosition(Table(run, n), run[m].code);
  }

  lemma RedeemRemoves(run: seq<Event>, m: nat)
    requires Proper(run) && m < |run| && run[m].Redeem?
    ensures !Has(Table(run, m + 1), run[m].code)
  {
    TableSound(run, m);
    var codes := Table(run, m);
    HasPosition(codes, run[m].code);
    if Position(codes, run[m].code) < |codes| {
      RemoveOrdered(codes, Position(codes, run[m].code));
    }
  }

  /** How many codes the events from `lo` up to `hi` minted. */
  function MintsIn(run: seq<Event>, lo: nat, hi: nat): nat
    requires lo <= hi <= |run|
    decreases hi
  {
    if lo == hi then 0 else MintsIn(run, lo, hi - 1) + if Mints(run[hi - 1]) then 1 else 0
  }

  /** The entry stays, with no more entries behind it than codes were minted since. */
  lemma {:induction false} EntryStays(run: seq<Event>, i: nat, n: nat)
    requires Proper(run) && i < n <= |run| && Mints(run[i])
    requires forall k :: i < k < n ==> !(run[k].Redeem? && run[k].code == run[i].code)
    requires run[n - 1].now < run[i].now + 60.0 && MintsIn(run, i + 1, n) < MAX_PENDING
    ensures
      var codes, p := Table(run, n), Position(Table(run, n), run[i].code);
      p < |codes| && MadeBy(codes[p], run[i]) && |codes| - 1 - p <= MintsIn(run, i + 1, n)
    decreases n
  {
    TableSound(run, n - 1);
    TableSound(run, n);
    var before, e := Table(run, n - 1), run[n - 1];
    if n - 1 == i {
      MintPlaces(before, e);
    } else {
      assert ProperAt(run, n - 1);
      EntryStays(run, i, n - 1);
      if Mints(e) {
        MintKeepsEntry(before, e, Position(before, run[i].code));
      } else if e.Redeem? {
        RedeemKeepsEntry(before, e.code, Position(before, run[i].code));
      }
    }
  }

  lemma MintPlaces(codes: Codes, e: Event)
    requires Ordered(codes) && |codes| <= MAX_PENDING && Mints(e) && Ordered(Step(codes, e))
    ensures var after := Step(codes, e);
      after != [] && Position(after, e.code) == |after| - 1 && MadeBy(after[|after| - 1], e)
  {
    var k := MintDropsFront(codes, e);
    OnlyPosition(Step(codes, e), |Step(codes, e)| - 1);
  }

  lemma MintKeepsEntry(codes: Codes, e: Event, p: nat)
    requires Ordered(codes) && |codes| <= MAX_PENDING && Mints(e) && Ordered(Step(codes, e))
    requires p < |codes| && codes[p].expires > e.now && |codes| - 1 - p < MAX_PENDING - 1
    ensures var after := Step(codes, e); var q := Position(after, codes[p].code);
      q < |after| && after[q] == codes[p] && |after| - 1 - q == |codes| - p
  {
    var k := MintDropsFront(codes, e);
    KeptByMint(codes, p, k, e);
    OnlyPosition(Step(codes, e), p - k);
  }

  lemma RedeemKeepsEntry(codes: Codes, code: string, p: nat)
    requires Ordered(codes) && p < |codes| && codes[p].code != code
    ensures var after := Redeemed(codes, code); var q := Position(after, codes[p].code);
      q < |after| && after[q] == codes[p] && |after| - 1 - q <= |codes| - 1 - p
  {
    var i := Position(codes, code);
    if i == |codes| {
      OnlyPosition(codes, p);
    } else {
      RemoveOrdered(codes, i);
      OnlyPosition(Redeemed(codes, code), if i < p then p - 1 else p);
    }
  }

  /** An unexpired entry with fewer than seven behind it is not dropped by a minting. */
  lemma KeptByMint(codes: Codes, p: nat, k: nat, e: Event)
    requires Ordered(codes) && p < |codes| && k <= |codes| && codes[p].expires > e.now
    requires k > 0 ==> codes[k - 1].expires <= e.now || |codes| - k == MAX_PENDING - 1
    requires |codes| - 1 - p < MAX_PENDING - 1
    ensures k <= p
  {
  }

  lemma OnlyPosition(codes: Codes, p: nat)
    requires Ordered(codes) && p < |codes|
    ensures Position(codes, codes[p].code) == p
  {
  }

  /** The code minted at i has been presented between i and n. */
  predicate Presented(run: seq<Event>, i: nat, n: nat)
    requires i < n <= |run|
  {
    exists k :: i < k < n && run[k].Redeem? && run[k].code == run[i].code
  }

  lemma PresentedIsGone(run: seq<Event>, i: nat, n: nat)
    requires Proper(run) && i < n < |run| && Mints(run[i]) && run[n].Redeem? && run[n].code == run[i].code
    requires Presented(run, i, n)
    ensures YieldAt(run, n).None?
  {
    var k :| i < k < n && run[k].Redeem? && run[k].code == run[i].code;
    MintedOnce(run, i);
    RedeemRemoves(run, k);
    GoneStaysGone(run, k + 1, n, run[i].code);
    HasPosition(Table(run, n), run[i].code);
  }

  lemma ExpiredYieldsNothing(run: seq<Event>, i: nat, n: nat)
    requires Proper(run) && i < n < |run| && Mints(run[i]) && run[n].Redeem? && run[n].code == run[i].code
    requires run[n].now >= run[i].now + 60.0
    ensures YieldAt(run, n).None?
  {
    MintedOnce(run, i);
    if YieldAt(run, n).Some? {
      var m := YieldsWhatWasMinted(run, n);
    }
  }

  /** Fewer than eight mintings later, a code yields exactly when its minute is not over and it has
      not been presented before. */
  lemma WorksUntilUsed(run: seq<Event>, i: nat, n: nat)
    requires Proper(run) && i < n < |run| && Mints(run[i]) && run[n].Redeem? && run[n].code == run[i].code
    requires MintsIn(run, i + 1, n) < 8
    ensures YieldAt(run, n).Some? <==> run[n].now < run[i].now + 60.0 && !Presented(run, i, n)
  {
    if Presented(run, i, n) {
      PresentedIsGone(run, i, n);
    } else if run[n].now >= run[i].now + 60.0 {
      ExpiredYieldsNothing(run, i, n);
    } else {
      assert ProperAt(run, n);
      EntryStays(run, i, n);
    }
  }

  // ---- The module's table ----------------------------------------------------------------

  class LoginCodes {
    var codes: Codes

    constructor ()
      ensures codes == []
    {
      codes := [];
    }

    /** mint; false is the ValueError of an unknown landing page. */
    method Mint(token: string, landing: Landing, now: real, code: string) returns (ok: bool)
      modifies this
      ensures ok == LandingPage(landing).Some?
      ensures codes == Minted(old(codes), token, landing, now, code)
    {
      if LandingPage(landing).None? {
        return false;
      }
      MakeRoom(now);
      codes := codes + [Entry(code, token, now + 60.0, landing)];
      return true;
    }

    method MakeRoom(now: real)
      modifies this
      ensures codes == Room(old(codes), now)
    {
      DropExpired(now);
      if |codes| >= MAX_PENDING {
        var oldest := FindOldest();
        codes := codes[..oldest] + codes[oldest + 1..];
      }
    }

    method DropExpired(now: real)
      modifies this
      ensures codes == Unexpired(old(codes), now)
    {
      var kept: Codes, i := [], 0;
      while i < |codes|
        invariant 0 <= i <= |codes| && codes == old(codes) && kept == Unexpired(codes[..i], now)
      {
        assert codes[..i + 1][..i] == codes[..i];
        if codes[i].expires > now {
          kept := kept + [codes[i]];
        }
        i := i + 1;
      }
      assert codes[..i] == codes;
      codes := kept;
    }

    method FindOldest() returns (oldest: nat)
      requires codes != []
      ensures oldest == Oldest(codes)
    {
      oldest := 0;
      var i := 1;
      while i < |codes|
        invariant 1 <= i <= |codes| && oldest == Oldest(codes[..i])
      {
        assert codes[..i + 1][..i] == codes[..i];
        if codes[i].expires < codes[oldest].expires {
          oldest := i;
        }
        i := i + 1;
      }
      assert codes[..i] == codes;
    }

    /** redeem: the entry goes, even when it turns out to have expired. */
    method Redeem(code: string, now: real) returns (y: Option<(string, Option<string>)>)
      modifies this
      ensures y == Yield(old(codes), code, now) && codes == Redeemed(old(codes), code)
    {
      var i := Position(codes, code);
      if i == |codes| {
        return None;
      }
      var entry := codes[i];
      codes := codes[..i] + codes[i + 1..];
      if entry.expires <= now {
        return None;
      }
      return Some((entry.token, LandingPage(entry.landing)));
    }
  }
}
