/**
 POST /settings (main/settings_manager.c): check everything, then write; reject what would make two
 local TCP services listen on the same port; tolerate a collision that was already there.
 */
module Settings {
  datatype Value = Text(s: string) | Flag(b: bool) | Number(n: int)

  datatype Json = Str(s: string) | Bool(b: bool) | Num(n: int) | Other

  datatype Side = One | Two

  /** The stored settings; those the cross-field checks look at by name, the rest by key. */
  datatype Field =
    | WebPort | CachePort | CacheEnabled
    | PortMode(side: Side) | BridgeMode(side: Side) | BridgePort(side: Side)
    | WifiPermDisable
    | Wifi(key: string)
    | Text_(key: string) | Flag_(key: string) | Number_(key: string)

  type Store = map<Field, Value>

  /** The per-setting validators. */
  type Rules = (Field, Value) -> bool

  datatype Item = Item(field: Field, json: Json)

  type Request = seq<Item>

  // ---- One field ----------------------------------------------------------------------------

  predicate IsText(f: Field) {
    f.PortMode? || f.BridgeMode? || f.Wifi? || f.Text_?
  }

  predicate IsFlag(f: Field) {
    f.CacheEnabled? || f.WifiPermDisable? || f.Flag_?
  }

  predicate TypeOk(f: Field, j: Json) {
    if IsText(f) then j.Str? else if IsFlag(f) then j.Bool? else j.Num?
  }

  predicate HasType(f: Field, v: Value) {
    if IsText(f) then v.Text? else if IsFlag(f) then v.Flag? else v.Number?
  }

  /** Other kinds of JSON value are of no type and never stored. */
  function ValueOf(j: Json): Value {
    match j
    case Str(s) => Text(s)
    case Bool(b) => Flag(b)
    case Num(n) => Number(n)
    case Other => Text("")
  }

  function JsonOf(v: Value): Json {
    match v
    case Text(s) => Str(s)
    case Flag(b) => Bool(b)
    case Number(n) => Num(n)
  }

  const INT_MIN := -0x8000_0000
  const INT_MAX := 0x7FFF_FFFF

  predicate ItemOk(rules: Rules, x: Item) {
    TypeOk(x.field, x.json) && (x.json.Num? ==> INT_MIN <= x.json.n <= INT_MAX) && rules(x.field, ValueOf(x.json))
  }

  // ---- What a request asks for --------------------------------------------------------------

  predicate PermDisabled(st: Store) {
    WifiPermDisable in st && st[WifiPermDisable] == Flag(true)
  }

  predicate SetsPermDisable(req: Request) {
    Item(WifiPermDisable, Bool(true)) in req
  }

  /** Items that count: the permanent flag can only be set, and Wi-Fi items are ignored once it is. */
  function Plan(req: Request, perm: bool): Request {
    if req == [] then []
    else
      var x := req[0];
      var skip := (x.field.WifiPermDisable? && x.json != Bool(true)) || (x.field.Wifi? && perm);
      (if skip then [] else [x]) + Plan(req[1..], perm)
  }

  function PlanOf(st: Store, req: Request): Request {
    Plan(req, PermDisabled(st) || SetsPermDisable(req))
  }

  predicate AllOk(rules: Rules, plan: Request) {
    forall x :: x in plan ==> ItemOk(rules, x)
  }

  predicate Names(req: Request, f: Field) {
    exists x :: x in req && x.field == f
  }

  predicate OncePerField(req: Request) {
    forall i, j :: 0 <= i < j < |req| ==> req[i].field != req[j].field
  }

  function WriteAll(st: Store, plan: Request): Store
    decreases |plan|
  {
    if plan == [] then st
    else WriteAll(st[plan[0].field := ValueOf(plan[0].json)], plan[1..])
  }

  // ---- Listeners ----------------------------------------------------------------------------

  datatype Listener = Web | Cache | Bridge(side: Side)

  const TCP_BRIDGE := "tcp_bridge"
  const SERVER := "server"

  predicate Active(st: Store, l: Listener) {
    match l
    case Web => true
    case Cache => CacheEnabled in st && st[CacheEnabled] == Flag(true)
    case Bridge(s) =>
      && PortMode(s) in st && st[PortMode(s)] == Text(TCP_BRIDGE)
      && BridgeMode(s) in st && st[BridgeMode(s)] == Text(SERVER)
  }

  function PortField(l: Listener): Field {
    match l
    case Web => WebPort
    case Cache => CachePort
    case Bridge(s) => BridgePort(s)
  }

  /** The fields that make a listener what it is. */
  predicate Defines(f: Field, l: Listener) {
    match l
    case Web => f == WebPort
    case Cache => f == CachePort || f == CacheEnabled
    case Bridge(s) => f == BridgePort(s) || f == PortMode(s) || f == BridgeMode(s)
  }

  predicate Touched(req: Request, l: Listener) {
    exists x :: x in req && Defines(x.field, l)
  }

  predicate Collide(st: Store, a: Listener, b: Listener) {
    && a != b && Active(st, a) && Active(st, b)
    && PortField(a) in st && PortField(b) in st && st[PortField(a)] == st[PortField(b)]
  }

  ghost predicate NoCollision(st: Store) {
    forall a, b :: !Collide(st, a, b)
  }

  /** The request has no hand in any collision it would leave behind. */
  ghost predicate CollisionsOk(after: Store, req: Request) {
    forall a, b :: Collide(after, a, b) ==> !Touched(req, a) && !Touched(req, b)
  }

  // ---- The request --------------------------------------------------------------------------

  datatype Result = Result(store: Store, success: bool)

  ghost predicate Accepts(rules: Rules, st: Store, req: Request) {
    AllOk(rules, PlanOf(st, req)) && CollisionsOk(WriteAll(st, PlanOf(st, req)), req)
  }

  /** `failAt` is the write that fails in flash, counting from zero; beyond the last one, none does. */
  ghost function Post(rules: Rules, st: Store, req: Request, failAt: nat): Result {
    var plan := PlanOf(st, req);
    if !Accepts(rules, st, req) then Result(st, false)
    else if failAt < |plan| then Result(WriteAll(st, plan[..failAt]), false)
    else Result(WriteAll(st, plan), true)
  }

  // ---- All or nothing -----------------------------------------------------------------------

  lemma {:induction false} PlanSubset(req: Request, perm: bool)
    ensures forall x :: x in Plan(req, perm) ==> x in req
    ensures OncePerField(req) ==> OncePerField(Plan(req, perm))
  {
    if req != [] {
      PlanSubset(req[1..], perm);
      assert forall i :: 0 < i < |req| ==> req[i] == req[1..][i - 1];
      assert OncePerField(req) ==> OncePerField(req[1..]);
      assert OncePerField(req) ==> forall y :: y in req[1..] ==> y.field != req[0].field;
    }
  }

  lemma {:induction false} WriteAllMeans(st: Store, plan: Request, f: Field)
    requires OncePerField(plan)
    ensures forall x :: x in plan && x.field == f ==>
            f in WriteAll(st, plan) && WriteAll(st, plan)[f] == ValueOf(x.json)
    ensures !Names(plan, f) ==> (f in WriteAll(st, plan) <==> f in st) && (f in st ==> WriteAll(st, plan)[f] == st[f])
    decreases |plan|
  {
    if plan != [] {
      var x, rest := plan[0], plan[1..];
      assert OncePerField(rest);
      WriteAllMeans(st[x.field := ValueOf(x.json)], rest, f);
      assert forall y :: y in plan <==> y == x || y in rest;
      assert forall y :: y in rest ==> y.field != x.field;
    }
  }

  /** An item that is to be stored: not one of the Wi-Fi group while Wi-Fi is permanently disabled or is being so
      by this request, and the permanent flag only to be set. */
  predicate Counts(st: Store, req: Request, x: Item) {
    && (x.field.Wifi? ==> !PermDisabled(st) && Item(WifiPermDisable, Bool(true)) !in req)
    && (x.field == WifiPermDisable ==> x.json == Bool(true))
  }

  lemma {:induction false} PlanHolds(req: Request, perm: bool, x: Item)
    ensures x in Plan(req, perm) <==>
            x in req && (x.field.Wifi? ==> !perm) && (x.field == WifiPermDisable ==> x.json == Bool(true))
  {
    if req != [] {
      PlanHolds(req[1..], perm, x);
    }
  }

  lemma {:induction false} PlanIsWhatCounts(st: Store, req: Request)
    ensures forall x :: x in PlanOf(st, req) <==> x in req && Counts(st, req, x)
  {
    forall x
      ensures x in PlanOf(st, req) <==> x in req && Counts(st, req, x)
    {
      PlanHolds(req, PermDisabled(st) || SetsPermDisable(req), x);
    }
  }

  /** What a valid item is, by the kind of JSON value. */
  lemma {:induction false} ItemOkMeans(rules: Rules, x: Item)
    ensures ItemOk(rules, x) <==>
            match x.json {
              case Str(t) => IsText(x.field) && rules(x.field, Text(t))
              case Bool(b) => IsFlag(x.field) && rules(x.field, Flag(b))
              case Num(n) =>
                !IsText(x.field) && !IsFlag(x.field) && -2147483648 <= n <= 2147483647 && rules(x.field, Number(n))
              case Other => false
            }
  {
  }

  predicate SameAt(st: Store, t: Store, f: Field) {
    (f in t <==> f in st) && (f in st ==> t[f] == st[f])
  }

  /** A request is refused, and changes nothing, exactly if an item that is to be stored is invalid, or if what it
      would leave has a collision it has a hand in. One that succeeds stores every item that is to be stored and
      leaves every other field as it was, those of items that are not to be stored included. */
  lemma {:induction false} PostMeans(rules: Rules, st: Store, req: Request, failAt: nat, f: Field)
    requires OncePerField(req)
    ensures Accepts(rules, st, req) <==>
            && (forall x :: x in req && Counts(st, req, x) ==> ItemOk(rules, x))
            && CollisionsOk(WriteAll(st, PlanOf(st, req)), req)
    ensures var r := Post(rules, st, req, failAt);
            && (!Accepts(rules, st, req) ==> r == Result(st, false))
            && (r.success <==> Accepts(rules, st, req) && failAt >= |PlanOf(st, req)|)
            && (r.success ==> r.store == WriteAll(st, PlanOf(st, req)))
    ensures var after := WriteAll(st, PlanOf(st, req));
            && (forall x :: x in req && x.field == f && Counts(st, req, x) ==>
                  f in after && after[f] == ValueOf(x.json))
            && (forall x :: x in req && x.field == f && !Counts(st, req, x) ==> SameAt(st, after, f))
            && (!Names(req, f) ==> SameAt(st, after, f))
  {
    var plan := PlanOf(st, req);
    PlanSubset(req, PermDisabled(st) || SetsPermDisable(req));
    PlanIsWhatCounts(st, req);
    WriteAllMeans(st, plan, f);
    forall x | x in req && x.field == f && !Counts(st, req, x)
      ensures !Names(plan, f)
    {
      OnlyOne(req, x);
    }
  }

  lemma {:induction false} OnlyOne(req: Request, x: Item)
    requires OncePerField(req) && x in req
    ensures forall y :: y in req && y.field == x.field ==> y == x
  {
  }

  /** Once Wi-Fi is permanently disabled, a Wi-Fi item is ignored, valid or not, and the flag cannot be cleared. */
  lemma {:induction false} WifiIsGone(rules: Rules, st: Store, key: string, json: Json, n: nat)
    requires WifiPermDisable in st && st[WifiPermDisable] == Flag(true)
    ensures Post(rules, st, [Item(Wifi(key), json)], n) == Result(st, true)
    ensures Post(rules, st, [Item(WifiPermDisable, Bool(false))], n) == Result(st, true)
  {
    var a, b := [Item(Wifi(key), json)], [Item(WifiPermDisable, Bool(false))];
    assert a[1..] == [] && b[1..] == [] && Plan(a[1..], true) == [] && Plan(b[1..], true) == [];
    assert Plan(a, true) == [] && Plan(b, true) == [];
    assert forall l :: !Touched(a, l) && !Touched(b, l);
  }

  /** In particular a Wi-Fi item posted to a device whose Wi-Fi is not permanently disabled is stored. */
  lemma {:induction false} WifiIsStored(rules: Rules, st: Store, key: string, text: string)
    requires (WifiPermDisable in st ==> st[WifiPermDisable] != Flag(true)) && rules(Wifi(key), Text(text))
    ensures var req := [Item(Wifi(key), Str(text))];
            Post(rules, st, req, 1) == Result(st[Wifi(key) := Text(text)], true)
  {
    var x := Item(Wifi(key), Str(text));
    var req := [x];
    assert req[1..] == [] && Plan(req[1..], false) == [];
    assert !SetsPermDisable(req);
    assert Plan(req, false) == req;
    assert WriteAll(st, req) == st[Wifi(key) := Text(text)];
    assert forall l :: !Touched(req, l);
  }

  /** After a failed write the store is untouched exactly if every write made so far repeated what was there. */
  lemma {:induction false} PartialWriteExactly(rules: Rules, st: Store, req: Request, failAt: nat)
    requires OncePerField(req) && Accepts(rules, st, req) && failAt < |PlanOf(st, req)|
    ensures Post(rules, st, req, failAt).store == st <==>
            forall i :: 0 <= i < failAt ==>
              var x := PlanOf(st, req)[i]; x.field in st && st[x.field] == ValueOf(x.json)
  {
    var plan := PlanOf(st, req);
    PlanSubset(req, PermDisabled(st) || SetsPermDisable(req));
    WriteNothingExactly(st, plan[..failAt]);
    assert forall i :: 0 <= i < failAt ==> plan[..failAt][i] == plan[i];
  }

  lemma {:induction false} WriteNothingExactly(st: Store, plan: Request)
    requires OncePerField(plan)
    ensures WriteAll(st, plan) == st <==>
            forall i :: 0 <= i < |plan| ==> plan[i].field in st && st[plan[i].field] == ValueOf(plan[i].json)
  {
    forall f
      ensures forall x :: x in plan && x.field == f ==>
              f in WriteAll(st, plan) && WriteAll(st, plan)[f] == ValueOf(x.json)
      ensures !Names(plan, f) ==> (f in WriteAll(st, plan) <==> f in st) && (f in st ==> WriteAll(st, plan)[f] == st[f])
    {
      WriteAllMeans(st, plan, f);
    }
    if forall i :: 0 <= i < |plan| ==> plan[i].field in st && st[plan[i].field] == ValueOf(plan[i].json) {
      forall f
        ensures f in WriteAll(st, plan) <==> f in st
        ensures f in st ==> WriteAll(st, plan)[f] == st[f]
      {
        if Names(plan, f) {
          var x :| x in plan && x.field == f;
        }
      }
    } else if WriteAll(st, plan) == st {
      forall i | 0 <= i < |plan|
        ensures plan[i].field in st && st[plan[i].field] == ValueOf(plan[i].json)
      {
        assert plan[i] in plan;
      }
    }
  }

  // ---- Collisions ---------------------------------------------------------------------------

  /** A listener the request does not touch is after it what it was before. */
  lemma {:induction false} UntouchedListener(st: Store, req: Request, plan: Request, l: Listener)
    requires OncePerField(plan) && forall x :: x in plan ==> x in req
    requires !Touched(req, l)
    ensures var after := WriteAll(st, plan);
            && (Active(after, l) <==> Active(st, l))
            && (PortField(l) in after <==> PortField(l) in st)
            && (PortField(l) in st ==> after[PortField(l)] == st[PortField(l)])
  {
    forall f | Defines(f, l)
      ensures !Names(plan, f)
    {
    }
    match l
    case Web => WriteAllMeans(st, plan, WebPort);
    case Cache =>
      WriteAllMeans(st, plan, CachePort);
      WriteAllMeans(st, plan, CacheEnabled);
    case Bridge(s) =>
      WriteAllMeans(st, plan, BridgePort(s));
      WriteAllMeans(st, plan, PortMode(s));
      WriteAllMeans(st, plan, BridgeMode(s));
  }

  /** A successful request leaves no collision that was not there before. */
  lemma {:induction false} NoNewCollision(rules: Rules, st: Store, req: Request, failAt: nat, a: Listener, b: Listener)
    requires OncePerField(req) && Post(rules, st, req, failAt).success
    requires Collide(Post(rules, st, req, failAt).store, a, b)
    ensures Collide(st, a, b) && !Touched(req, a) && !Touched(req, b)
  {
    var plan := PlanOf(st, req);
    PlanSubset(req, PermDisabled(st) || SetsPermDisable(req));
    UntouchedListener(st, req, plan, a);
    UntouchedListener(st, req, plan, b);
  }

  /** The factory ports, whatever else is set, and whichever services are on. */
  lemma {:induction false} FactoryPortsDiffer(st: Store)
    requires WebPort in st && st[WebPort] == Number(80) && CachePort in st && st[CachePort] == Number(504)
    requires BridgePort(One) in st && st[BridgePort(One)] == Number(502)
    requires BridgePort(Two) in st && st[BridgePort(Two)] == Number(503)
    ensures NoCollision(st)
  {
    forall a, b
      ensures !Collide(st, a, b)
    {
      assert a.Bridge? ==> a.side == One || a.side == Two;
      assert b.Bridge? ==> b.side == One || b.side == Two;
    }
  }

  /** Swapping two ports in one request is fine, but a failure between its two writes leaves both on one. */
  lemma {:induction false} HalfSwapCollides(rules: Rules, st: Store)
    requires NoCollision(st) && Active(st, Cache) && WebPort in st && CachePort in st
    requires st[WebPort] == Number(80) && st[CachePort] == Number(504)
    requires rules(WebPort, Number(504)) && rules(CachePort, Number(80))
    requires forall s: Side :: !Active(st, Bridge(s))
    ensures var req := [Item(WebPort, Num(504)), Item(CachePort, Num(80))];
            && Post(rules, st, req, 2).success
            && !Post(rules, st, req, 1).success
            && Collide(Post(rules, st, req, 1).store, Web, Cache)
  {
    var req := [Item(WebPort, Num(504)), Item(CachePort, Num(80))];
    PlanOfSwap(st, req);
    var after := WriteAll(st, req);
    var first := st[WebPort := Number(504)];
    assert req[1..] == [req[1]] && req[1..][1..] == [];
    assert after == first[CachePort := Number(80)];
    assert req[..1] == [req[0]] && req[..1][1..] == [];
    assert WriteAll(st, req[..1]) == first;
    forall a, b
      ensures !Collide(after, a, b)
    {
      assert !Collide(st, a, b);
    }
  }

  lemma {:induction false} PlanOfSwap(st: Store, req: Request)
    requires |req| == 2 && !req[0].field.Wifi? && !req[1].field.Wifi? && !req[0].field.WifiPermDisable? &&
            !req[1].field.WifiPermDisable?
    ensures PlanOf(st, req) == req
  {
    var perm := PermDisabled(st) || SetsPermDisable(req);
    assert req[1..] == [req[1]] && req[1..][1..] == [];
    assert Plan(req[1..], perm) == [req[1]];
    assert Plan(req, perm) == [req[0]] + [req[1]];
  }

  // ---- Export and import --------------------------------------------------------------------

  /** A document that names every stored field with its stored value, except the Wi-Fi group once Wi-Fi is
      permanently disabled. */
  predicate Exports(st: Store, doc: Request) {
    && OncePerField(doc)
    && (forall x :: x in doc ==> x.field in st && x.json == JsonOf(st[x.field]))
    && (forall f :: f in st && !(f.Wifi? && PermDisabled(st)) ==> Names(doc, f))
  }

  predicate WellStored(rules: Rules, st: Store) {
    forall f :: f in st ==> HasType(f, st[f]) && rules(f, st[f]) && (st[f].Number? ==> INT_MIN <= st[f].n <= INT_MAX)
  }

  /** Posting the exported document back is accepted exactly when no two active listeners share a port, and
      then changes nothing. */
  lemma {:induction false} ExportImportExactly(rules: Rules, st: Store, doc: Request)
    requires WellStored(rules, st) && Exports(st, doc) && WebPort in st && CachePort in st
    requires forall s: Side :: BridgePort(s) in st
    ensures Accepts(rules, st, doc) <==> NoCollision(st)
    ensures Accepts(rules, st, doc) ==> Post(rules, st, doc, |doc|) == Result(st, true)
  {
    var perm := PermDisabled(st) || SetsPermDisable(doc);
    var plan := PlanOf(st, doc);
    PlanSubset(doc, perm);
    PlanNoLonger(doc, perm);
    forall x | x in plan
      ensures ItemOk(rules, x) && ValueOf(x.json) == st[x.field]
    {
    }
    forall i | 0 <= i < |plan|
      ensures plan[i].field in st && st[plan[i].field] == ValueOf(plan[i].json)
    {
      assert plan[i] in plan;
    }
    WriteNothingExactly(st, plan);
    forall l: Listener
      ensures Touched(doc, l)
    {
      assert Names(doc, PortField(l));
    }
  }

  lemma {:induction false} PlanNoLonger(req: Request, perm: bool)
    ensures |Plan(req, perm)| <= |req|
  {
    if req != [] {
      PlanNoLonger(req[1..], perm);
    }
  }

  // ---- The code -----------------------------------------------------------------------------

  const LISTENERS: seq<Listener> := [Web, Cache, Bridge(One), Bridge(Two)]

  lemma {:induction false} EveryListener(l: Listener) returns (i: nat)
    ensures i < |LISTENERS| && LISTENERS[i] == l
  {
    i := match l
      case Web => 0
      case Cache => 1
      case Bridge(s) => if s == One then 2 else 3;
  }

  ghost predicate PairOk(after: Store, req: Request, i: nat, j: nat)
    requires i < |LISTENERS| && j < |LISTENERS|
  {
    Collide(after, LISTENERS[i], LISTENERS[j]) ==> !Touched(req, LISTENERS[i]) && !Touched(req, LISTENERS[j])
  }

  lemma {:induction false} AllPairsOk(after: Store, req: Request)
    requires forall i, j :: 0 <= i < j < |LISTENERS| ==> PairOk(after, req, i, j)
    ensures CollisionsOk(after, req)
  {
    forall a, b | Collide(after, a, b)
      ensures !Touched(req, a) && !Touched(req, b)
    {
      var i := EveryListener(a);
      var j := EveryListener(b);
      if i < j {
        assert PairOk(after, req, i, j);
      } else {
        assert PairOk(after, req, j, i);
      }
    }
  }

  /** Every pair of listeners is compared once. */
  method ValidatePortCollisions(after: Store, req: Request) returns (ok: bool)
    ensures ok <==> CollisionsOk(after, req)
  {
    for i := 0 to |LISTENERS|
      invariant forall p, q :: 0 <= p < i && p < q < |LISTENERS| ==> PairOk(after, req, p, q)
    {
      for j := i + 1 to |LISTENERS|
        invariant forall q :: i < q < j ==> PairOk(after, req, i, q)
      {
        if Collide(after, LISTENERS[i], LISTENERS[j]) && (Touched(req, LISTENERS[i]) || Touched(req, LISTENERS[j])) {
          return false;
        }
      }
    }
    AllPairsOk(after, req);
    return true;
  }

  method ValidateItems(rules: Rules, plan: Request) returns (ok: bool)
    ensures ok <==> AllOk(rules, plan)
  {
    for i := 0 to |plan|
      invariant forall k :: 0 <= k < i ==> ItemOk(rules, plan[k])
    {
      if !ItemOk(rules, plan[i]) {
        assert plan[i] in plan;
        return false;
      }
    }
    return true;
  }

  lemma {:induction false} WriteOneMore(st: Store, plan: Request, i: nat)
    requires i < |plan|
    ensures WriteAll(st, plan[..i + 1]) == WriteAll(st, plan[..i])[plan[i].field := ValueOf(plan[i].json)]
    decreases i
  {
    var upTo := plan[..i + 1];
    if i > 0 {
      WriteOneMore(st[plan[0].field := ValueOf(plan[0].json)], plan[1..], i - 1);
      assert upTo[1..] == plan[1..][..i] && plan[..i][1..] == plan[1..][..i - 1];
    } else {
      assert upTo[1..] == [];
    }
  }

  class Manager {
    var nvs: Store

    /** settings_process_request_json; `failAt` is the write that flash refuses. */
    method ProcessRequest(rules: Rules, req: Request, failAt: nat) returns (success: bool)
      modifies this
      ensures Result(nvs, success) == Post(rules, old(nvs), req, failAt)
    {
      var plan := PlanOf(nvs, req);
      var ok := ValidateItems(rules, plan);
      if ok {
        ok := ValidatePortCollisions(WriteAll(nvs, plan), req);
      }
      if !ok {
        return false;
      }
      for i := 0 to |plan|
        invariant i <= failAt && nvs == WriteAll(old(nvs), plan[..i])
      {
        if i == failAt {
          return false;
        }
        WriteOneMore(old(nvs), plan, i);
        nvs := nvs[plan[i].field := ValueOf(plan[i].json)];
      }
      assert plan[..|plan|] == plan;
      return true;
    }
  }
}
