/**
 * The facade that `factory` builds: it resolves a scope into a page and an item
 * key, checks the backend id and (in strict mode) the template, and dispatches
 * to the storage layer under the bucket key `$zMultiCachePrefix$-<ns>-<page>`.
 */
module Store {
  import opened Values
  import opened Registry
  import opened Scope
  import opened Strict
  import opened Buckets
  import opened Storages

  const NamespacePrefix: string := "$zMultiCachePrefix$"
  /** The page used when the page part of a scope is empty. */
  const DefaultPage: string := "$page$"
  const DefaultStorageType: string := SessionStorage

  /** The options `factory` destructures, with its defaults applied. */
  datatype Config = Config(ns: string, strict: bool, template: Value, separator: string, getterStrict: bool)

  /** `factory()` with no options. */
  const DefaultConfig: Config := Config("$ns$", false, Obj(map[]), "/", true)

  /** A facade holds nothing but the configuration its methods close over. */
  datatype Facade = Facade(config: Config)

  /** `factory`: a strict facade needs a plain-object template. */
  function Factory(config: Config): (r: Result<Facade>)
    ensures r.Err? <==> config.strict && !config.template.Obj?
    ensures r.Err? ==> r.error == TemplateNotObject
    ensures r.Ok? ==> r.value.config == config
  {
    if config.strict && !IsSimpleObject(config.template) then Err(TemplateNotObject)
    else Ok(Facade(config))
  }

  /** The module's default facade `factory()` is built without error, and is not strict. */
  lemma DefaultFactory()
    ensures Factory(DefaultConfig) == Ok(Facade(DefaultConfig))
    ensures !DefaultConfig.strict && DefaultConfig.ns == "$ns$" && DefaultConfig.separator == "/"
  {
  }

  /** `${partialStoreKey}-${page}`. */
  function StoreKey(ns: string, page: string): (k: string)
    ensures |k| == |NamespacePrefix| + |ns| + |page| + 2
    ensures k[|k| - |page|..] == page
  {
    NamespacePrefix + "-" + ns + "-" + page
  }

  /** The characters of a store key, position by position. */
  lemma StoreKeyLayout(ns: string, page: string)
    ensures var k := StoreKey(ns, page); var n := |NamespacePrefix| + 1;
      && |k| == n + |ns| + 1 + |page|
      && (forall i | 0 <= i < |ns| :: k[n + i] == ns[i])
      && k[n + |ns|] == '-'
      && k[n + |ns| + 1..] == page
  {
    var k := StoreKey(ns, page);
    var n := |NamespacePrefix| + 1;
    assert k == (NamespacePrefix + "-") + ns + ("-" + page);
  }

  /** Namespaces without a dash give distinct facades distinct buckets. */
  lemma StoreKeyInjective(ns1: string, page1: string, ns2: string, page2: string)
    requires '-' !in ns1 && '-' !in ns2
    ensures StoreKey(ns1, page1) == StoreKey(ns2, page2) <==> ns1 == ns2 && page1 == page2
  {
    if StoreKey(ns1, page1) == StoreKey(ns2, page2) {
      var n := |NamespacePrefix| + 1;
      StoreKeyLayout(ns1, page1);
      StoreKeyLayout(ns2, page2);
      if |ns1| < |ns2| {
        assert false;
      }
      if |ns2| < |ns1| {
        assert false;
      }
      assert ns1 == ns2;
    }
  }

  /** With a dash in a namespace two facades can share a bucket. */
  lemma NamespaceCollision()
    ensures StoreKey("a", "b-c") == StoreKey("a-b", "c")
  {
  }

  // ---- Locating a bucket -----------------------------------------------------

  /** The destructuring default `scope = "global"` replaces only an absent scope. */
  function ScopeOrGlobal(scope: Value): (s: Value)
    ensures s != Undefined
    ensures scope != Undefined ==> s == scope
  {
    if scope == Undefined then Str(GlobalPage) else scope
  }

  /** Where an item lives: the page (after the default) and the key inside its bucket. */
  datatype Target = Target(page: string, itemKey: string)

  /**
   * Resolve the scope, substitute the default page, and, when `enforce` holds,
   * run the strict check.
   */
  function Locate(f: Facade, key: string, scope: Value, enforce: bool): (r: Result<Target>)
    ensures !ScopeOrGlobal(scope).Str? <==> r == Err(InvalidScope)
    ensures r.Err? ==> r.error == InvalidScope || r.error.Schema? || r.error == TypeError
    ensures r.Ok? ==> r.value.page != ""
    ensures r.Ok? && r.value.page == GlobalPage ==> r.value.itemKey == key
  {
    match Resolve(ScopeOrGlobal(scope), key, f.config.separator)
    case Err(e) => Err(e)
    case Ok(res) =>
      var page := if res.page.Some? then res.page.value else DefaultPage;
      var c := if enforce then StrictCheck(f.config.strict, f.config.template, page, res.itemKey) else Pass;
      if c.Fail? then Err(c.error) else Ok(Target(page, res.itemKey))
  }

  /**
   * The target is the resolved page and item key, with `$page$` for an absent
   * page: the bucket a scope reaches is fixed by resolution alone.
   */
  lemma LocateResolves(f: Facade, key: string, scope: Value, enforce: bool)
    requires Locate(f, key, scope, enforce).Ok?
    ensures var res := Resolve(ScopeOrGlobal(scope), key, f.config.separator).value;
      Locate(f, key, scope, enforce).value == Target(if res.page.None? then DefaultPage else res.page.value, res.itemKey)
  {
  }

  /** The strict check only accepts or rejects: it never moves the target. */
  lemma LocateWithoutCheck(f: Facade, key: string, scope: Value, enforce: bool)
    requires Locate(f, key, scope, true).Ok?
    ensures Locate(f, key, scope, enforce) == Locate(f, key, scope, true)
  {
  }

  /** The page depends on the scope only, never on the key. */
  lemma PageIgnoresKey(f: Facade, k1: string, k2: string, scope: Value)
    requires Locate(f, k1, scope, false).Ok? && Locate(f, k2, scope, false).Ok?
    ensures Locate(f, k1, scope, false).value.page == Locate(f, k2, scope, false).value.page
  {
  }

  /** `checkParams({type})` for a write, then the target. */
  function WriteTarget(f: Facade, storageType: string, key: string, scope: Value): (r: Result<Target>)
    ensures storageType !in WriteList <==> r == Err(InvalidBackend(storageType, ForWrite))
    ensures storageType in WriteList ==> r == Locate(f, key, scope, true)
  {
    match CheckStorageType(storageType, ForWrite)
    case Fail(e) => Err(e)
    case Pass => Locate(f, key, scope, true)
  }

  // ---- setItem -------------------------------------------------------------

  /** The options `setItem` reads; `hasCallback` is whether `errCallBack` is a function. */
  datatype SetOptions = SetOptions(storageType: string, scope: Value, hasCallback: bool)

  /** `setItem`: checks, then the storage layer's write into the page's bucket. */
  function SetEffect(f: Facade, bs: Backends, key: string, v: Value, opts: SetOptions, writeFails: bool): (e: Effect)
    ensures opts.storageType !in WriteList ==> e == Effect(Err(InvalidBackend(opts.storageType, ForWrite)), bs)
    ensures opts.storageType in WriteList && !ScopeOrGlobal(opts.scope).Str? ==> e == Effect(Err(InvalidScope), bs)
    ensures e.status.Err? || writeFails ==> e.after == bs
  {
    match WriteTarget(f, opts.storageType, key, opts.scope)
    case Err(err) => Effect(Err(err), bs)
    case Ok(t) => SetItemEffect(bs, opts.storageType, StoreKey(f.config.ns, t.page), t.itemKey, v, writeFails, opts.hasCallback)
  }

  /** `setItem` on the storage object. */
  method SetItem(f: Facade, s: Storage, key: string, v: Value, opts: SetOptions, writeFails: bool)
    returns (status: Result<bool>)
    modifies s
    ensures Effect(status, s.backends) == SetEffect(f, old(s.backends), key, v, opts, writeFails)
  {
    var t := WriteTarget(f, opts.storageType, key, opts.scope);
    if t.Err? {
      return Err(t.error);
    }
    status := s.SetItem(opts.storageType, StoreKey(f.config.ns, t.value.page), t.value.itemKey, v, writeFails, opts.hasCallback);
  }

  // ---- getItem -------------------------------------------------------------

  /**
   * The forms of `getItem`'s `type`: a backend id, an object `{key, type}` that
   * redirects the lookup (an empty `key` keeps the caller's key, an absent `type`
   * reaches the check as "undefined"), or a list of alternatives tried in order.
   */
  datatype TypeSpec =
    | Single(id: string)
    | Override(key: string, target: Option<string>)
    | Fallback(chain: seq<TypeSpec>)

  datatype GetOptions = GetOptions(spec: TypeSpec, scope: Value, defaultValue: Value)

  /** `getDefaultValue`: a function default is called. */
  function DefaultValue(v: Value): (r: Value)
    ensures r == v <==> !v.Func?
    ensures v.Func? ==> r == v.result
  {
    if v.Func? then assert v.result < v; v.result else v
  }

  /** `getItem` for one backend id, after any redirection; `url` is `getUrlParam`. */
  function ReadOne(f: Facade, bs: Backends, url: string -> Value, key: string, id: string,
                   scope: Value, defaultValue: Value): (r: Result<Value>)
    ensures id !in ReadList ==> r == Err(InvalidBackend(id, ForRead))
    ensures id == UrlSearch ==> r == Ok(if Truthy(url(key)) then url(key) else DefaultValue(defaultValue))
    ensures id in WriteList && !ScopeOrGlobal(scope).Str? ==> r == Err(InvalidScope)
    ensures r.Ok? && (r.value == Undefined || r.value == Null) ==> r.value == DefaultValue(defaultValue)
  {
    if CheckStorageType(id, ForRead).Fail? then Err(InvalidBackend(id, ForRead))
    else
      var d := DefaultValue(defaultValue);
      if id == UrlSearch then
        var v := url(key);
        Ok(if Truthy(v) then v else d)
      else
        match Locate(f, key, scope, f.config.getterStrict)
        case Err(e) => Err(e)
        case Ok(t) =>
          match Read(bs, id, StoreKey(f.config.ns, t.page), t.itemKey)
          case Err(e) => Err(e)
          case Ok(v) => Ok(if v == Undefined || v == Null then d else v)
  }

  /** `getItem` on the backends `bs`. */
  function Lookup(f: Facade, bs: Backends, url: string -> Value, key: string, opts: GetOptions): (r: Result<Value>)
    ensures opts.spec.Fallback? && r.Ok? ==> Truthy(r.value) || r.value == opts.defaultValue
    decreases opts.spec, 1
  {
    match opts.spec
    case Single(id) => ReadOne(f, bs, url, key, id, opts.scope, opts.defaultValue)
    case Override(k, id) =>
      ReadOne(f, bs, url, if k != "" then k else key, if id.Some? then id.value else "undefined", opts.scope, opts.defaultValue)
    case Fallback(_) => FirstHit(Results(f, bs, url, key, opts), opts.defaultValue)
  }

  /** The options of the nested call for entry `i` of a fallback list: that entry, no default. */
  function Entry(opts: GetOptions, i: nat): (e: GetOptions)
    requires opts.spec.Fallback? && i < |opts.spec.chain|
    ensures e.spec == opts.spec.chain[i] && e.scope == opts.scope && e.defaultValue == Undefined
  {
    opts.(spec := opts.spec.chain[i], defaultValue := Undefined)
  }

  /** What the nested call for each entry of a fallback list returns, in list order. */
  function Results(f: Facade, bs: Backends, url: string -> Value, key: string, opts: GetOptions): (rs: seq<Result<Value>>)
    requires opts.spec.Fallback?
    ensures |rs| == |opts.spec.chain|
    decreases opts.spec, 0
  {
    seq(|opts.spec.chain|, i requires 0 <= i < |opts.spec.chain| =>
      assert opts.spec.chain[i] < opts.spec; Lookup(f, bs, url, key, Entry(opts, i)))
  }

  /** The loop over a fallback list: the first result that throws or is truthy, else `d`. */
  function FirstHit(rs: seq<Result<Value>>, d: Value): (r: Result<Value>)
    ensures r.Ok? ==> Truthy(r.value) || r.value == d
    ensures r.Err? ==> r in rs
  {
    if rs == [] then Ok(d)
    else if rs[0].Err? || Truthy(rs[0].value) then rs[0]
    else FirstHit(rs[1..], d)
  }

  /** `getItem`: the fallback list is a loop with early return over nested calls. */
  method GetItem(f: Facade, s: Storage, url: string -> Value, key: string, opts: GetOptions) returns (r: Result<Value>)
    ensures r == Lookup(f, s.backends, url, key, opts)
    decreases opts.spec
  {
    match opts.spec {
      case Fallback(chain) =>
        ghost var rs := Results(f, s.backends, url, key, opts);
        var i := 0;
        while i < |chain|
          invariant i <= |chain|
          invariant Lookup(f, s.backends, url, key, opts) == FirstHit(rs[i..], opts.defaultValue)
        {
          assert chain[i] < opts.spec;
          var result := GetItem(f, s, url, key, Entry(opts, i));
          assert result == rs[i..][0];
          if result.Err? || Truthy(result.value) {
            return result;
          }
          assert rs[i..][1..] == rs[i + 1..];
          i := i + 1;
        }
        r := Ok(opts.defaultValue);
      case Single(id) =>
        r := ReadOne(f, s.backends, url, key, id, opts.scope, opts.defaultValue);
      case Override(k, id) =>
        var redirected := if k != "" then k else key;
        var backend := if id.Some? then id.value else "undefined";
        r := ReadOne(f, s.backends, url, redirected, backend, opts.scope, opts.defaultValue);
    }
  }

  /** A result the loop passes over: it does not throw and reads as falsy. */
  predicate Miss(r: Result<Value>)
  {
    r.Ok? && !Truthy(r.value)
  }

  /**
   * The loop returns the first result that is not a miss, and `d` when every
   * result is one.
   */
  lemma {:induction false} FirstHitAt(rs: seq<Result<Value>>, d: Value, j: nat)
    requires j <= |rs|
    requires forall k | 0 <= k < j :: Miss(rs[k])
    requires j < |rs| ==> !Miss(rs[j])
    ensures FirstHit(rs, d) == if j == |rs| then Ok(d) else rs[j]
  {
    if j > 0 {
      assert forall k | 0 <= k < j - 1 :: rs[1..][k] == rs[k + 1];
      FirstHitAt(rs[1..], d, j - 1);
    }
  }

  /**
   * A fallback list returns the first entry that throws or reads as truthy, and
   * the raw `default` (not called) when every entry reads as falsy.
   */
  lemma FallbackResult(f: Facade, bs: Backends, url: string -> Value, key: string, opts: GetOptions, j: nat)
    requires opts.spec.Fallback? && j <= |opts.spec.chain|
    requires forall k | 0 <= k < j :: Miss(Lookup(f, bs, url, key, Entry(opts, k)))
    requires j < |opts.spec.chain| ==> !Miss(Lookup(f, bs, url, key, Entry(opts, j)))
    ensures Lookup(f, bs, url, key, opts) ==
      if j == |opts.spec.chain| then Ok(opts.defaultValue) else Lookup(f, bs, url, key, Entry(opts, j))
  {
    var rs := Results(f, bs, url, key, opts);
    assert forall k | 0 <= k < |rs| :: rs[k] == Lookup(f, bs, url, key, Entry(opts, k));
    FirstHitAt(rs, opts.defaultValue, j);
  }

  /** An object `type` redirects the lookup to its own key and backend. */
  lemma OverrideRedirects(f: Facade, bs: Backends, url: string -> Value, key: string, k: string, id: string, scope: Value, d: Value)
    ensures Lookup(f, bs, url, key, GetOptions(Override(k, Some(id)), scope, d)) ==
      Lookup(f, bs, url, if k != "" then k else key, GetOptions(Single(id), scope, d))
    ensures Lookup(f, bs, url, key, GetOptions(Override(k, None), scope, d)) == Err(InvalidBackend("undefined", ForRead))
  {
    assert "undefined" !in ReadList;
  }

  /** A read id is checked before the scope is looked at. */
  lemma ReadChecksTypeFirst(f: Facade, bs: Backends, url: string -> Value, key: string, id: string, scope: Value, d: Value)
    requires id !in ReadList
    ensures Lookup(f, bs, url, key, GetOptions(Single(id), scope, d)) == Err(InvalidBackend(id, ForRead))
  {
  }

  /** The URL pseudo-backend ignores the scope and the buckets. */
  lemma UrlSearchIgnoresScope(f: Facade, bs: Backends, url: string -> Value, key: string, scope: Value, d: Value)
    ensures Lookup(f, bs, url, key, GetOptions(Single(UrlSearch), scope, d)) ==
      Ok(if Truthy(url(key)) then url(key) else DefaultValue(d))
  {
    assert UrlSearch in ReadList;
  }

  /** After a successful `setItem`, `getItem` with the same backend, scope and key returns the value. */
  lemma SetThenGet(f: Facade, bs: Backends, key: string, v: Value, opts: SetOptions, url: string -> Value, d: Value)
    requires SetEffect(f, bs, key, v, opts, false).status.Ok?
    ensures Lookup(f, SetEffect(f, bs, key, v, opts, false).after, url, key, GetOptions(Single(opts.storageType), opts.scope, d)) ==
      Ok(if v == Undefined || v == Null then DefaultValue(d) else v)
  {
    var t := WriteTarget(f, opts.storageType, key, opts.scope).value;
    LocateWithoutCheck(f, key, opts.scope, f.config.getterStrict);
    ReadAfterSet(bs, opts.storageType, StoreKey(f.config.ns, t.page), t.itemKey, v, opts.hasCallback);
  }

  // ---- Namespaces ------------------------------------------------------------

  /** A read depends only on the one bucket its scope reaches. */
  lemma ReadOneFrame(f: Facade, a: Backends, b: Backends, url: string -> Value, key: string, id: string, scope: Value, d: Value)
    requires var t := Locate(f, key, scope, f.config.getterStrict);
      t.Ok? ==> Load(a, id, StoreKey(f.config.ns, t.value.page)) == Load(b, id, StoreKey(f.config.ns, t.value.page))
    ensures ReadOne(f, a, url, key, id, scope, d) == ReadOne(f, b, url, key, id, scope, d)
  {
    if CheckStorageType(id, ForRead).Pass? && id != UrlSearch {
      var t := Locate(f, key, scope, f.config.getterStrict);
      if t.Ok? {
        var sk := StoreKey(f.config.ns, t.value.page);
        ReadFrame(a, b, id, sk, t.value.itemKey);
        assert ReadOne(f, a, url, key, id, scope, d) ==
          match Read(a, id, sk, t.value.itemKey)
          case Err(e) => Err(e)
          case Ok(v) => Ok(if v == Undefined || v == Null then DefaultValue(d) else v);
      }
    }
  }

  /** `a` and `b` agree on every bucket of namespace `ns`. */
  ghost predicate SameNamespace(a: Backends, b: Backends, ns: string)
  {
    forall id, page :: Load(a, id, StoreKey(ns, page)) == Load(b, id, StoreKey(ns, page))
  }

  lemma ReadOneSeesOwnNamespace(f: Facade, a: Backends, b: Backends, url: string -> Value, key: string, id: string, scope: Value, d: Value)
    requires SameNamespace(a, b, f.config.ns)
    ensures ReadOne(f, a, url, key, id, scope, d) == ReadOne(f, b, url, key, id, scope, d)
  {
    var t := Locate(f, key, scope, f.config.getterStrict);
    if t.Ok? {
      assert Load(a, id, StoreKey(f.config.ns, t.value.page)) == Load(b, id, StoreKey(f.config.ns, t.value.page));
    }
    ReadOneFrame(f, a, b, url, key, id, scope, d);
  }

  /** A facade's reads only see the buckets of its own namespace. */
  lemma {:induction false} LookupSeesOwnNamespace(f: Facade, a: Backends, b: Backends, url: string -> Value, key: string, opts: GetOptions)
    requires SameNamespace(a, b, f.config.ns)
    ensures Lookup(f, a, url, key, opts) == Lookup(f, b, url, key, opts)
    decreases opts.spec, 1
  {
    match opts.spec
    case Single(id) => ReadOneSeesOwnNamespace(f, a, b, url, key, id, opts.scope, opts.defaultValue);
    case Override(k, id) =>
      ReadOneSeesOwnNamespace(f, a, b, url, if k != "" then k else key, if id.Some? then id.value else "undefined", opts.scope, opts.defaultValue);
    case Fallback(_) => ResultsSeeOwnNamespace(f, a, b, url, key, opts);
  }

  lemma {:induction false} ResultsSeeOwnNamespace(f: Facade, a: Backends, b: Backends, url: string -> Value, key: string, opts: GetOptions)
    requires SameNamespace(a, b, f.config.ns)
    requires opts.spec.Fallback?
    ensures Results(f, a, url, key, opts) == Results(f, b, url, key, opts)
    decreases opts.spec, 0
  {
    forall i | 0 <= i < |opts.spec.chain|
      ensures Results(f, a, url, key, opts)[i] == Results(f, b, url, key, opts)[i]
    {
      assert opts.spec.chain[i] < opts.spec;
      LookupSeesOwnNamespace(f, a, b, url, key, Entry(opts, i));
    }
  }

  /** A write that touches one bucket of namespace `ns1` leaves every bucket of `ns2` alone. */
  lemma OtherNamespaceUntouched(before: Backends, after: Backends, id: string, ns1: string, page: string, ns2: string)
    requires '-' !in ns1 && '-' !in ns2 && ns1 != ns2
    requires OthersUnchanged(before, after, id, StoreKey(ns1, page))
    ensures SameNamespace(after, before, ns2)
  {
    forall other, p
      ensures Load(after, other, StoreKey(ns2, p)) == Load(before, other, StoreKey(ns2, p))
    {
      StoreKeyInjective(ns1, page, ns2, p);
    }
  }

  /** `setItem` on one facade changes no read of a facade with another namespace. */
  lemma NamespaceIsolation(f1: Facade, f2: Facade, bs: Backends, key: string, v: Value, opts: SetOptions, writeFails: bool,
                           url: string -> Value, key2: string, opts2: GetOptions)
    requires '-' !in f1.config.ns && '-' !in f2.config.ns && f1.config.ns != f2.config.ns
    ensures Lookup(f2, SetEffect(f1, bs, key, v, opts, writeFails).after, url, key2, opts2) == Lookup(f2, bs, url, key2, opts2)
  {
    var e := SetEffect(f1, bs, key, v, opts, writeFails);
    if e.status.Ok? && !writeFails {
      var t := WriteTarget(f1, opts.storageType, key, opts.scope).value;
      var page := t.page;
      ReadAfterSet(bs, opts.storageType, StoreKey(f1.config.ns, page), t.itemKey, v, opts.hasCallback);
      OtherNamespaceUntouched(bs, e.after, opts.storageType, f1.config.ns, page, f2.config.ns);
      LookupSeesOwnNamespace(f2, e.after, bs, url, key2, opts2);
    }
  }

  // ---- removeItem and clear ------------------------------------------------

  /** The options `removeItem` and `clear` read. */
  datatype ScopeOptions = ScopeOptions(storageType: string, scope: Value)

  /** `opts = {}`: sessionStorage and the global page. */
  const DefaultScopeOptions: ScopeOptions := ScopeOptions(DefaultStorageType, Undefined)

  /** `removeItem` as evidently intended: the checks, then the storage layer's removal. */
  function RemoveEffect(f: Facade, bs: Backends, key: string, opts: ScopeOptions, writeFails: bool): (e: Effect)
    ensures opts.storageType !in WriteList ==> e == Effect(Err(InvalidBackend(opts.storageType, ForWrite)), bs)
    ensures opts.storageType in WriteList && !ScopeOrGlobal(opts.scope).Str? ==> e == Effect(Err(InvalidScope), bs)
    ensures e.status.Err? || writeFails ==> e.after == bs
  {
    match WriteTarget(f, opts.storageType, key, opts.scope)
    case Err(err) => Effect(Err(err), bs)
    case Ok(t) => RemoveItemEffect(bs, opts.storageType, StoreKey(f.config.ns, t.page), t.itemKey, writeFails)
  }

  method RemoveItem(f: Facade, s: Storage, key: string, opts: ScopeOptions, writeFails: bool) returns (status: Result<bool>)
    modifies s
    ensures Effect(status, s.backends) == RemoveEffect(f, old(s.backends), key, opts, writeFails)
  {
    var t := WriteTarget(f, opts.storageType, key, opts.scope);
    if t.Err? {
      return Err(t.error);
    }
    status := s.RemoveItem(opts.storageType, StoreKey(f.config.ns, t.value.page), t.value.itemKey, writeFails);
  }

  /** After a successful removal from an object bucket, `getItem` returns the default. */
  lemma RemoveThenGet(f: Facade, bs: Backends, key: string, opts: ScopeOptions, url: string -> Value, d: Value)
    requires RemoveEffect(f, bs, key, opts, false).status.Ok?
    ensures Lookup(f, RemoveEffect(f, bs, key, opts, false).after, url, key, GetOptions(Single(opts.storageType), opts.scope, d)) ==
      Ok(DefaultValue(d))
  {
    var t := WriteTarget(f, opts.storageType, key, opts.scope).value;
    LocateWithoutCheck(f, key, opts.scope, f.config.getterStrict);
    ReadAfterRemove(bs, opts.storageType, StoreKey(f.config.ns, t.page), t.itemKey);
  }

  /** `clear`: the checks, with the empty key, then an empty bucket for the page. */
  function ClearPageEffect(f: Facade, bs: Backends, opts: ScopeOptions, writeFails: bool): (e: Effect)
    ensures opts.storageType !in WriteList ==> e == Effect(Err(InvalidBackend(opts.storageType, ForWrite)), bs)
    ensures opts.storageType in WriteList && !ScopeOrGlobal(opts.scope).Str? ==> e == Effect(Err(InvalidScope), bs)
    ensures e.status.Err? || writeFails ==> e.after == bs
  {
    match WriteTarget(f, opts.storageType, "", opts.scope)
    case Err(err) => Effect(Err(err), bs)
    case Ok(t) => ClearEffect(bs, opts.storageType, StoreKey(f.config.ns, t.page), writeFails)
  }

  method Clear(f: Facade, s: Storage, opts: ScopeOptions, writeFails: bool) returns (status: Result<bool>)
    modifies s
    ensures Effect(status, s.backends) == ClearPageEffect(f, old(s.backends), opts, writeFails)
  {
    var t := WriteTarget(f, opts.storageType, "", opts.scope);
    if t.Err? {
      return Err(t.error);
    }
    status := s.Clear(opts.storageType, StoreKey(f.config.ns, t.value.page), writeFails);
  }

  /** Within one namespace, equal store keys mean equal pages. */
  lemma StoreKeySamePage(ns: string, p1: string, p2: string)
    ensures StoreKey(ns, p1) == StoreKey(ns, p2) ==> p1 == p2
  {
    var n := |NamespacePrefix + "-" + ns + "-"|;
    assert StoreKey(ns, p1)[n..] == p1;
    assert StoreKey(ns, p2)[n..] == p2;
  }

  /** `getItem` with a plain string `type` is one read of that backend. */
  lemma LookupSingle(f: Facade, bs: Backends, url: string -> Value, key: string, id: string, scope: Value, d: Value)
    ensures Lookup(f, bs, url, key, GetOptions(Single(id), scope, d)) == ReadOne(f, bs, url, key, id, scope, d)
  {
  }

  /** The read behind `ClearThenGet`. */
  lemma ClearThenRead(f: Facade, bs: Backends, opts: ScopeOptions, key: string, scope: Value, url: string -> Value, d: Value)
    requires ClearPageEffect(f, bs, opts, false).status.Ok?
    requires Locate(f, key, scope, f.config.getterStrict).Ok?
    requires Locate(f, key, scope, false).Ok? && Locate(f, "", opts.scope, false).Ok?
    requires Locate(f, key, scope, false).value.page == Locate(f, "", opts.scope, false).value.page
    ensures ReadOne(f, ClearPageEffect(f, bs, opts, false).after, url, key, opts.storageType, scope, d) == Ok(DefaultValue(d))
  {
    var t := WriteTarget(f, opts.storageType, "", opts.scope).value;
    LocateWithoutCheck(f, "", opts.scope, false);
    if f.config.getterStrict {
      LocateWithoutCheck(f, key, scope, false);
    }
    ReadAfterClear(bs, opts.storageType, StoreKey(f.config.ns, t.page));
  }

  /**
   * After a successful clear, every key on the cleared page reads as the default,
   * through any scope that reaches that page (for example "home/hotel" after
   * clearing "home").
   */
  lemma ClearThenGet(f: Facade, bs: Backends, opts: ScopeOptions, key: string, scope: Value, url: string -> Value, d: Value)
    requires ClearPageEffect(f, bs, opts, false).status.Ok?
    requires Locate(f, key, scope, f.config.getterStrict).Ok?
    requires Locate(f, key, scope, false).Ok? && Locate(f, "", opts.scope, false).Ok?
    requires Locate(f, key, scope, false).value.page == Locate(f, "", opts.scope, false).value.page
    ensures Lookup(f, ClearPageEffect(f, bs, opts, false).after, url, key, GetOptions(Single(opts.storageType), scope, d)) ==
      Ok(DefaultValue(d))
  {
    ClearThenRead(f, bs, opts, key, scope, url, d);
    LookupSingle(f, ClearPageEffect(f, bs, opts, false).after, url, key, opts.storageType, scope, d);
  }

  /** The read behind `ClearKeepsOtherPages`. */
  lemma ClearKeepsOtherReads(f: Facade, bs: Backends, opts: ScopeOptions, key: string, id: string, scope: Value,
                             url: string -> Value, d: Value)
    requires ClearPageEffect(f, bs, opts, false).status.Ok?
    requires Locate(f, "", opts.scope, false).Ok?
    requires id == opts.storageType && Locate(f, key, scope, false).Ok? ==>
      Locate(f, key, scope, false).value.page != Locate(f, "", opts.scope, false).value.page
    ensures ReadOne(f, ClearPageEffect(f, bs, opts, false).after, url, key, id, scope, d) ==
      ReadOne(f, bs, url, key, id, scope, d)
  {
    var t := WriteTarget(f, opts.storageType, "", opts.scope).value;
    var sk := StoreKey(f.config.ns, t.page);
    var after := ClearPageEffect(f, bs, opts, false).after;
    LocateWithoutCheck(f, "", opts.scope, false);
    ReadAfterClear(bs, opts.storageType, sk);
    var r := Locate(f, key, scope, f.config.getterStrict);
    if r.Ok? {
      if f.config.getterStrict {
        LocateWithoutCheck(f, key, scope, false);
      }
      StoreKeySamePage(f.config.ns, r.value.page, t.page);
      assert Load(after, id, StoreKey(f.config.ns, r.value.page)) == Load(bs, id, StoreKey(f.config.ns, r.value.page));
    }
    ReadOneFrame(f, after, bs, url, key, id, scope, d);
  }

  /** A clear leaves every read of another backend or another page as it was. */
  lemma ClearKeepsOtherPages(f: Facade, bs: Backends, opts: ScopeOptions, key: string, id: string, scope: Value,
                             url: string -> Value, d: Value)
    requires ClearPageEffect(f, bs, opts, false).status.Ok?
    requires Locate(f, "", opts.scope, false).Ok?
    requires id == opts.storageType && Locate(f, key, scope, false).Ok? ==>
      Locate(f, key, scope, false).value.page != Locate(f, "", opts.scope, false).value.page
    ensures Lookup(f, ClearPageEffect(f, bs, opts, false).after, url, key, GetOptions(Single(id), scope, d)) ==
      Lookup(f, bs, url, key, GetOptions(Single(id), scope, d))
  {
    ClearKeepsOtherReads(f, bs, opts, key, id, scope, url, d);
    LookupSingle(f, ClearPageEffect(f, bs, opts, false).after, url, key, id, scope, d);
    LookupSingle(f, bs, url, key, id, scope, d);
  }

  // ---- removeItem and clear as written -------------------------------------

  /** The checks one call of `removeItem` or `clear` runs before it reaches storage. */
  function Admit(f: Facade, key: string, opts: ScopeOptions): (c: Check)
    ensures c.Pass? <==> WriteTarget(f, opts.storageType, key, opts.scope).Ok?
  {
    match WriteTarget(f, opts.storageType, key, opts.scope)
    case Err(e) => Fail(e)
    case Ok(_) => Pass
  }

  /**
   * A facade method that, after its checks `admits(key, opts)`, calls the facade's
   * own `removeItem(type, storeKey, itemKey)` or `clear(type, storeKey)` instead of
   * the storage layer's: the nested call receives the backend id as its key and a
   * string as its options, whose `type` and `scope` read as undefined and take their
   * defaults. `depth` is the stack space left; storage is never reached.
   */
  function Reentry(admits: (string, ScopeOptions) -> Check, key: string, opts: ScopeOptions, depth: nat): (c: Check)
    ensures c.Fail?
    decreases depth
  {
    match admits(key, opts)
    case Fail(e) => Fail(e)
    case Pass =>
      if depth == 0 then Fail(RangeError)
      else Reentry(admits, opts.storageType, DefaultScopeOptions, depth - 1)
  }

  /** When every call with a valid backend id and a string scope is admitted, the recursion exhausts the stack. */
  lemma {:induction false} ReentryOverflows(admits: (string, ScopeOptions) -> Check, key: string, opts: ScopeOptions, depth: nat)
    requires forall k: string, o: ScopeOptions :: o.storageType in WriteList && ScopeOrGlobal(o.scope).Str? ==> admits(k, o) == Pass
    requires opts.storageType in WriteList && ScopeOrGlobal(opts.scope).Str?
    ensures Reentry(admits, key, opts, depth) == Fail(RangeError)
    decreases depth
  {
    if depth > 0 {
      assert DefaultStorageType in WriteList;
      ReentryOverflows(admits, opts.storageType, DefaultScopeOptions, depth - 1);
    }
  }

  /** The facade's `removeItem` as written. */
  function RemoveAsWritten(f: Facade, key: string, opts: ScopeOptions, depth: nat): (c: Check)
    ensures c.Fail?
    ensures Admit(f, key, opts).Fail? ==> c == Admit(f, key, opts)
  {
    Reentry((k: string, o: ScopeOptions) => Admit(f, k, o), key, opts, depth)
  }

  /** The facade's `clear` as written: every call checks the empty key. */
  function ClearAsWritten(f: Facade, opts: ScopeOptions, depth: nat): (c: Check)
    ensures c.Fail?
    ensures Admit(f, "", opts).Fail? ==> c == Admit(f, "", opts)
  {
    Reentry((_: string, o: ScopeOptions) => Admit(f, "", o), "", opts, depth)
  }

  /** Without strict mode only the backend id and the type of the scope are checked. */
  lemma AdmitNonStrict(f: Facade, key: string, opts: ScopeOptions)
    requires !f.config.strict
    requires opts.storageType in WriteList && ScopeOrGlobal(opts.scope).Str?
    ensures Admit(f, key, opts) == Pass
  {
  }

  /** Without strict mode every valid removal as written exhausts the stack. */
  lemma RemoveAsWrittenOverflows(f: Facade, key: string, opts: ScopeOptions, depth: nat)
    requires !f.config.strict
    requires opts.storageType in WriteList && ScopeOrGlobal(opts.scope).Str?
    ensures RemoveAsWritten(f, key, opts, depth) == Fail(RangeError)
  {
    var admits := (k: string, o: ScopeOptions) => Admit(f, k, o);
    forall k: string, o: ScopeOptions | o.storageType in WriteList && ScopeOrGlobal(o.scope).Str?
      ensures admits(k, o) == Pass
    {
      AdmitNonStrict(f, k, o);
    }
    ReentryOverflows(admits, key, opts, depth);
  }

  /** Without strict mode every valid clear as written exhausts the stack. */
  lemma ClearAsWrittenOverflows(f: Facade, opts: ScopeOptions, depth: nat)
    requires !f.config.strict
    requires opts.storageType in WriteList && ScopeOrGlobal(opts.scope).Str?
    ensures ClearAsWritten(f, opts, depth) == Fail(RangeError)
  {
    var admits := (_: string, o: ScopeOptions) => Admit(f, "", o);
    forall k: string, o: ScopeOptions | o.storageType in WriteList && ScopeOrGlobal(o.scope).Str?
      ensures admits(k, o) == Pass
    {
      AdmitNonStrict(f, "", o);
    }
    ReentryOverflows(admits, "", opts, depth);
  }
}
