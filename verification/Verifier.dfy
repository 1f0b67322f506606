/** Inputs of the verifier in verifier.py: resources, templates, profiles, and the requests they expand to. */
module Verifier {
  import opened Common
  import opened Ordering

  datatype Resource = Resource(key: string, kind: string, value: string, owner: string, tenant: Option<string>)

  datatype Template = Template(name: string, url: string, verb: string, route: Option<string>,
                               resourceKind: Option<string>, tags: seq<string>)

  datatype Profile = Profile(principal: string, role: string, headers: map<string, string>,
                             tenant: Option<string>, owned: Option<set<string>>)

  datatype Request = Request(url: string, verb: string, route: string, resourceId: Option<string>,
                             ownsResource: Option<bool>, resourceTenant: Option<string>, tags: seq<string>)

  /** The library calls on text: `str.lower`, `urllib.parse.quote`, the path of a URL, and whether it is absolute HTTP(S). */
  datatype Text = Text(lower: string -> string, quote: string -> string, path: string -> string,
                       absolute: string -> bool)

  datatype Error =
    | NoProfiles
    | NoTemplates
    | RepeatedPrincipal
    | RepeatedKey
    | RepeatedValue
    | BadResource(key: string)
    | UnknownOwner(key: string, owner: string)
    | BadTemplate(name: string)
    | NoSuchResources(name: string, kind: string)
    | OverBudget(total: nat, limit: nat)

  const SAFE_METHODS: set<string> := {"GET", "HEAD", "OPTIONS"}
  const PLACEHOLDER: string := "{resource}"
  const ANONYMOUS: string := "anonymous"

  // Validation.

  predicate KeyChar(c: char) {
    'A' <= c <= 'Z' || 'a' <= c <= 'z' || '0' <= c <= '9' || c in "_.:@-"
  }

  /** `ControlledResource.validate`. */
  predicate ValidResource(t: Text, r: Resource) {
    && 1 <= |r.key| <= 128 && (forall c :: c in r.key ==> KeyChar(c))
    && 1 <= |r.kind| <= 80
    && 1 <= |r.value| <= 512
    && r.owner != "" && t.lower(r.owner) != ANONYMOUS
    && '\r' !in r.value && '\n' !in r.value
  }

  /** `url.count("{resource}")`. */
  function Placeholders(url: string): nat {
    if |url| < |PLACEHOLDER| then 0
    else if url[..|PLACEHOLDER|] == PLACEHOLDER then 1 + Placeholders(url[|PLACEHOLDER|..])
    else Placeholders(url[1..])
  }

  /** `url.replace("{resource}", value)`. */
  function Fill(url: string, value: string): string {
    if |url| < |PLACEHOLDER| then url
    else if url[..|PLACEHOLDER|] == PLACEHOLDER then value + Fill(url[|PLACEHOLDER|..], value)
    else [url[0]] + Fill(url[1..], value)
  }

  /** A kind that Python takes as true. */
  predicate HasKind(t: Template) {
    t.resourceKind.Some? && t.resourceKind.value != ""
  }

  /** `RequestTemplate.validate`. */
  predicate ValidTemplate(x: Text, t: Template) {
    && 1 <= |t.name| <= 120
    && t.verb in SAFE_METHODS
    && x.absolute(Fill(t.url, "barq-fixture"))
    && Placeholders(t.url) == if HasKind(t) then 1 else 0
  }

  function Principals(profiles: seq<Profile>): seq<string> {
    seq(|profiles|, i requires 0 <= i < |profiles| => profiles[i].principal)
  }

  function KeysOf(resources: seq<Resource>): seq<string> {
    seq(|resources|, i requires 0 <= i < |resources| => resources[i].key)
  }

  function KindValues(resources: seq<Resource>): seq<(string, string)> {
    seq(|resources|, i requires 0 <= i < |resources| => (resources[i].kind, resources[i].value))
  }

  predicate SomeOfKind(resources: seq<Resource>, kind: string) {
    exists r :: r in resources && r.kind == kind
  }

  function ResourceError(x: Text, profiles: seq<Profile>, r: Resource): Option<Error> {
    if !ValidResource(x, r) then Some(BadResource(r.key))
    else if r.owner !in Principals(profiles) then Some(UnknownOwner(r.key, r.owner))
    else None
  }

  function TemplateError(x: Text, resources: seq<Resource>, t: Template): Option<Error> {
    if !ValidTemplate(x, t) then Some(BadTemplate(t.name))
    else if HasKind(t) && !SomeOfKind(resources, t.resourceKind.value) then
      Some(NoSuchResources(t.name, t.resourceKind.value))
    else None
  }

  function FirstError<T>(check: T -> Option<Error>, s: seq<T>): Option<Error> {
    if s == [] then None else if check(s[0]).Some? then check(s[0]) else FirstError(check, s[1..])
  }

  /** The error of `_validate_inputs`, in the order of its checks. */
  ghost function InputError(x: Text, profiles: seq<Profile>, resources: seq<Resource>, templates: seq<Template>): Option<Error> {
    if profiles == [] then Some(NoProfiles)
    else if templates == [] then Some(NoTemplates)
    else if !NoRepeats(Principals(profiles)) then Some(RepeatedPrincipal)
    else if !NoRepeats(KeysOf(resources)) then Some(RepeatedKey)
    else if !NoRepeats(KindValues(resources)) then Some(RepeatedValue)
    else
      var e := FirstError(r => ResourceError(x, profiles, r), resources);
      if e.Some? then e else FirstError(t => TemplateError(x, resources, t), templates)
  }

  /** The inputs that are let through. */
  ghost predicate Validated(x: Text, profiles: seq<Profile>, resources: seq<Resource>, templates: seq<Template>) {
    && profiles != [] && templates != []
    && NoRepeats(Principals(profiles)) && NoRepeats(KeysOf(resources)) && NoRepeats(KindValues(resources))
    && (forall r :: r in resources ==> ValidResource(x, r) && r.owner in Principals(profiles))
    && (forall t :: t in templates ==>
          ValidTemplate(x, t) && (HasKind(t) ==> SomeOfKind(resources, t.resourceKind.value)))
  }

  lemma {:induction false} NoErrorIff<T>(check: T -> Option<Error>, s: seq<T>)
    ensures FirstError(check, s).None? <==> forall v :: v in s ==> check(v).None?
  {
    if s != [] {
      NoErrorIff(check, s[1..]);
      assert forall v :: v in s <==> v == s[0] || v in s[1..];
    }
  }

  lemma ValidatedExactly(x: Text, profiles: seq<Profile>, resources: seq<Resource>, templates: seq<Template>)
    ensures InputError(x, profiles, resources, templates).None? <==> Validated(x, profiles, resources, templates)
  {
    NoErrorIff(r => ResourceError(x, profiles, r), resources);
    NoErrorIff(t => TemplateError(x, resources, t), templates);
  }

  /** `len(s) != len(set(s))`. */
  method HasRepeats<T(==)>(s: seq<T>) returns (b: bool)
    ensures b <==> !NoRepeats(s)
  {
    var distinct: set<T> := {};
    for i := 0 to |s|
      invariant distinct == set v | v in s[..i]
    {
      assert s[..i + 1] == s[..i] + [s[i]];
      distinct := distinct + {s[i]};
    }
    assert s[..|s|] == s;
    DistinctCount(s);
    b := |s| != |distinct|;
  }

  /** One of the two loops at the end of `_validate_inputs`. */
  method CheckAll<T>(check: T -> Option<Error>, s: seq<T>) returns (e: Option<Error>)
    ensures e == FirstError(check, s)
  {
    for i := 0 to |s|
      invariant FirstError(check, s) == FirstError(check, s[i..])
    {
      e := check(s[i]);
      if e.Some? {
        return e;
      }
    }
    e := None;
  }

  /** `_validate_inputs`. */
  method ValidateInputs(x: Text, profiles: seq<Profile>, resources: seq<Resource>, templates: seq<Template>)
    returns (e: Option<Error>)
    ensures e == InputError(x, profiles, resources, templates)
  {
    if profiles == [] {
      return Some(NoProfiles);
    }
    if templates == [] {
      return Some(NoTemplates);
    }
    var b := HasRepeats(Principals(profiles));
    if b {
      return Some(RepeatedPrincipal);
    }
    b := HasRepeats(KeysOf(resources));
    if b {
      return Some(RepeatedKey);
    }
    b := HasRepeats(KindValues(resources));
    if b {
      return Some(RepeatedValue);
    }
    e := CheckAll(r => ResourceError(x, profiles, r), resources);
    if e.None? {
      e := CheckAll(t => TemplateError(x, resources, t), templates);
    }
  }

  // Ownership.

  /** The keys of the resources that `principal` owns. */
  function OwnedBy(resources: seq<Resource>, principal: string): set<string> {
    set r | r in resources && r.owner == principal :: r.key
  }

  function Enriched(profiles: seq<Profile>, resources: seq<Resource>): seq<Profile> {
    seq(|profiles|, i requires 0 <= i < |profiles| =>
      profiles[i].(owned := Some(OwnedBy(resources, profiles[i].principal))))
  }

  /** The dictionary of `_owned_profiles`: the keys that each principal owns. */
  method KeysOwned(profiles: seq<Profile>, resources: seq<Resource>) returns (ownership: map<string, set<string>>)
    requires forall r :: r in resources ==> r.owner in Principals(profiles)
    ensures forall p :: p in ownership <==> p in Principals(profiles)
    ensures forall p :: p in ownership ==> ownership[p] == OwnedBy(resources, p)
  {
    ownership := map[];
    for i := 0 to |profiles|
      invariant forall p :: p in ownership <==> p in Principals(profiles)[..i]
      invariant forall p :: p in ownership ==> ownership[p] == {}
    {
      ownership := ownership[profiles[i].principal := {}];
      assert Principals(profiles)[..i + 1] == Principals(profiles)[..i] + [profiles[i].principal];
    }
    assert Principals(profiles)[..|profiles|] == Principals(profiles);
    for i := 0 to |resources|
      invariant forall p :: p in ownership <==> p in Principals(profiles)
      invariant forall p :: p in ownership ==> ownership[p] == OwnedBy(resources[..i], p)
    {
      var r := resources[i];
      assert r in resources;
      assert resources[..i + 1] == resources[..i] + [r];
      ownership := ownership[r.owner := ownership[r.owner] + {r.key}];
    }
    assert resources[..|resources|] == resources;
  }

  /** `_owned_profiles`. */
  method OwnedProfiles(profiles: seq<Profile>, resources: seq<Resource>) returns (enriched: seq<Profile>)
    requires forall r :: r in resources ==> r.owner in Principals(profiles)
    ensures enriched == Enriched(profiles, resources)
  {
    var ownership := KeysOwned(profiles, resources);
    enriched := [];
    for i := 0 to |profiles|
      invariant enriched == Enriched(profiles, resources)[..i]
    {
      assert Principals(profiles)[i] in Principals(profiles);
      enriched := enriched + [profiles[i].(owned := Some(ownership[profiles[i].principal]))];
    }
  }

  predicate Anonymous(x: Text, p: Profile) {
    x.lower(p.role) == ANONYMOUS || x.lower(p.principal) == ANONYMOUS
  }

  const THE_ANONYMOUS: Profile := Profile(ANONYMOUS, ANONYMOUS, map[], None, Some({}))

  /** The profiles of a run: one anonymous profile is added when asked for and not there. */
  function Roster(x: Text, includeAnonymous: bool, enriched: seq<Profile>): seq<Profile> {
    if includeAnonymous && !(exists p :: p in enriched && Anonymous(x, p)) then enriched + [THE_ANONYMOUS] else enriched
  }

  // Requests.

  /** `RequestTemplate.render` with a resource of the template's kind. */
  function RenderFor(x: Text, t: Template, r: Resource): Request {
    Request(Fill(t.url, x.quote(r.value)), t.verb, RouteOf(x, t), Some(r.key), None, r.tenant,
            t.tags + ["template:" + t.name, "controlled-resource-swap"])
  }

  /** `RequestTemplate.render` without a resource. */
  function RenderPlain(x: Text, t: Template): Request {
    Request(t.url, t.verb, RouteOf(x, t), None, None, None,
            t.tags + ["template:" + t.name, "controlled-identity-swap"])
  }

  /** `self.route or urlsplit(self.url).path`. */
  function RouteOf(x: Text, t: Template): string {
    if t.route.Some? && t.route.value != "" then t.route.value else x.path(t.url)
  }

  function ForKind(x: Text, t: Template, kind: string, resources: seq<Resource>): seq<Request> {
    if resources == [] then []
    else
      var n := |resources| - 1;
      ForKind(x, t, kind, resources[..n]) + (if resources[n].kind == kind then [RenderFor(x, t, resources[n])] else [])
  }

  function Expand(x: Text, t: Template, resources: seq<Resource>): seq<Request> {
    if HasKind(t) then ForKind(x, t, t.resourceKind.value, resources) else [RenderPlain(x, t)]
  }

  function Requests(x: Text, templates: seq<Template>, resources: seq<Resource>): seq<Request> {
    if templates == [] then []
    else
      var n := |templates| - 1;
      Requests(x, templates[..n], resources) + Expand(x, templates[n], resources)
  }

  method ExpandTemplate(x: Text, t: Template, resources: seq<Resource>) returns (result: seq<Request>)
    ensures result == Expand(x, t, resources)
  {
    result := [];
    if HasKind(t) {
      for i := 0 to |resources|
        invariant result == ForKind(x, t, t.resourceKind.value, resources[..i])
      {
        assert resources[..i + 1][..i] == resources[..i];
        if resources[i].kind == t.resourceKind.value {
          result := result + [RenderFor(x, t, resources[i])];
        }
      }
      assert resources[..|resources|] == resources;
    } else {
      result := [RenderPlain(x, t)];
    }
  }

  /** `_requests`. */
  method BuildRequests(x: Text, templates: seq<Template>, resources: seq<Resource>) returns (result: seq<Request>)
    ensures result == Requests(x, templates, resources)
  {
    result := [];
    for i := 0 to |templates|
      invariant result == Requests(x, templates[..i], resources)
    {
      assert templates[..i + 1][..i] == templates[..i];
      var more := ExpandTemplate(x, templates[i], resources);
      result := result + more;
    }
    assert templates[..|templates|] == templates;
  }

  // Repeated templates.

  datatype TemplateKey = TemplateKey(verb: string, url: string, kind: Option<string>)

  function KeyFor(t: Template): TemplateKey {
    TemplateKey(t.verb, t.url, t.resourceKind)
  }

  /** The first template of each key, in order. */
  function Deduped(templates: seq<Template>): seq<Template> {
    if templates == [] then []
    else
      var n := |templates| - 1;
      var before := Deduped(templates[..n]);
      if exists t :: t in templates[..n] && KeyFor(t) == KeyFor(templates[n]) then before else before + [templates[n]]
  }

  lemma DedupedSnoc(templates: seq<Template>, t: Template)
    ensures var seen := set u | u in templates :: KeyFor(u);
            && Deduped(templates + [t]) == Deduped(templates) + (if KeyFor(t) in seen then [] else [t])
            && (set u | u in templates + [t] :: KeyFor(u)) == seen + {KeyFor(t)}
  {
    assert (templates + [t])[..|templates|] == templates;
  }

  /** `OpenApiReadTemplatePlanner._dedupe`. */
  method Dedupe(templates: seq<Template>) returns (result: seq<Template>)
    ensures result == Deduped(templates)
  {
    result := [];
    var seen: set<TemplateKey> := {};
    for i := 0 to |templates|
      invariant result == Deduped(templates[..i])
      invariant seen == set t | t in templates[..i] :: KeyFor(t)
    {
      var t := templates[i];
      DedupedSnoc(templates[..i], t);
      assert templates[..i + 1] == templates[..i] + [t];
      if KeyFor(t) !in seen {
        result := result + [t];
        seen := seen + {KeyFor(t)};
      }
    }
    assert templates[..|templates|] == templates;
  }
}
