/** The runtime descriptors' validator (`build_support.rs`) and the alias lookups it justifies. */
module Catalog {
  import opened Basics
  import opened Text

  const SESSION_ID_PLACEHOLDER := "{session_id}"
  const CONTESTED_ALIASES: seq<string> := ["fx"]

  datatype Resume = Resume(
    sessionArgv: seq<string>,
    continueArgv: Option<seq<string>>,
    forkArgv: Option<seq<string>>,
    sessionIdPattern: string,
    failureMarkers: seq<string>)

  /** A runtime descriptor. `restIsSound` stands for the checks of single fields that no lookup rests on. */
  datatype Descriptor = Descriptor(
    path: string,
    id: string,
    order: nat,
    visibilityKey: string,
    commandAliases: seq<string>,
    processAliases: seq<string>,
    titlePrefix: Option<string>,
    resume: Option<Resume>,
    hasHookAdapter: bool,
    restIsSound: bool)

  datatype Problem =
    | Unsound
    | DuplicateId(id: string)
    | DuplicateOrder(order: nat)
    | DuplicateVisibilityKey(key: string)
    | NoCommandAlias
    | InvalidAlias(alias: string)
    | DuplicateAlias(alias: string)
    | Contested(alias: string)
    | AliasConflict(alias: string)
    | EmptyTemplate
    | PlaceholderProgram
    | ForeignProgram(program: string)
    | PlaceholderCount
    | OddArgument(arg: string)
    | InvalidPattern
    | BlankMarker

  // ----- what single fields must be -----

  predicate IsLower(c: char) {
    'a' <= c <= 'z'
  }

  predicate IsUpper(c: char) {
    'A' <= c <= 'Z'
  }

  predicate IsAlphanumeric(c: char) {
    IsLower(c) || IsUpper(c) || IsDigit(c)
  }

  predicate IsAliasChar(c: char) {
    IsLower(c) || IsDigit(c) || c == '-' || c == '_' || c == '.'
  }

  predicate IsAlias(s: string) {
    s != "" && forall i :: 0 <= i < |s| ==> IsAliasChar(s[i])
  }

  predicate IsPlainChar(c: char) {
    IsAlphanumeric(c) || c == '-' || c == '_' || c == '.' || c == '='
  }

  /** `is_plain_argument`, and `is_plain_shell_token` as well. */
  predicate IsPlain(s: string) {
    s != "" && forall i :: 0 <= i < |s| ==> IsPlainChar(s[i])
  }

  function LowerChar(c: char): (r: char) {
    if IsUpper(c) then (c as int + 32) as char else c
  }

  function Lowercase(s: string): (r: string)
    ensures |r| == |s|
    ensures forall i :: 0 <= i < |s| ==> r[i] == LowerChar(s[i])
  {
    seq(|s|, i requires 0 <= i < |s| => LowerChar(s[i]))
  }

  /** An alias is made of lower-case letters, digits, hyphens, underscores and dots. */
  lemma AliasesAre(s: string)
    ensures IsAlias(s) <==>
              s != "" && forall i :: 0 <= i < |s| ==>
                'a' <= s[i] <= 'z' || '0' <= s[i] <= '9' || s[i] == '-' || s[i] == '_' || s[i] == '.'
  {
  }

  /** Lower case: the letter as far from `a` as the capital is from `A`. */
  lemma LowerCaseIs(s: string, i: nat)
    requires i < |s|
    ensures 'A' <= s[i] <= 'Z' ==> Lowercase(s)[i] as int - 'a' as int == s[i] as int - 'A' as int
    ensures !('A' <= s[i] <= 'Z') ==> Lowercase(s)[i] == s[i]
  {
  }

  lemma AliasesAreLowercase(s: string)
    requires IsAlias(s)
    ensures Lowercase(s) == s
  {
  }

  function Count(argv: seq<string>, arg: string): (r: nat) {
    multiset(argv)[arg]
  }

  predicate TemplateIsSound(commandAliases: seq<string>, argv: seq<string>, needsSessionId: bool) {
    && argv != []
    && argv[0] != SESSION_ID_PLACEHOLDER && argv[0] in commandAliases
    && Count(argv, SESSION_ID_PLACEHOLDER) == (if needsSessionId then 1 else 0)
    && forall i :: 1 <= i < |argv| ==> argv[i] == SESSION_ID_PLACEHOLDER || IsPlain(argv[i])
  }

  predicate ResumeIsSound(commandAliases: seq<string>, resume: Resume, compiles: string -> bool) {
    && TemplateIsSound(commandAliases, resume.sessionArgv, true)
    && (resume.continueArgv.Some? ==> TemplateIsSound(commandAliases, resume.continueArgv.value, false))
    && (resume.forkArgv.Some? ==> TemplateIsSound(commandAliases, resume.forkArgv.value, true))
    && compiles(resume.sessionIdPattern)
    && forall m :: m in resume.failureMarkers ==> Trim(m) != ""
  }

  predicate NoDuplicates(s: seq<string>) {
    forall i, j :: 0 <= i < j < |s| ==> s[i] != s[j]
  }

  predicate AliasesAreSound(aliases: seq<string>, titlePrefix: Option<string>) {
    && (forall a :: a in aliases ==> IsAlias(a) && (a in CONTESTED_ALIASES ==> titlePrefix.Some?))
    && NoDuplicates(aliases)
  }

  predicate IsSoundAlone(d: Descriptor, compiles: string -> bool) {
    && d.restIsSound
    && d.commandAliases != []
    && AliasesAreSound(d.commandAliases, d.titlePrefix)
    && AliasesAreSound(d.processAliases, d.titlePrefix)
    && (d.resume.Some? ==> ResumeIsSound(d.commandAliases, d.resume.value, compiles))
  }

  predicate Claims(d: Descriptor, key: string) {
    || (exists a :: a in d.commandAliases && Lowercase(a) == key)
    || (exists a :: a in d.processAliases && Lowercase(a) == key)
  }

  predicate Differ(d: Descriptor, e: Descriptor) {
    d.id != e.id && d.order != e.order && d.visibilityKey != e.visibilityKey
  }

  ghost predicate Disjoint(ds: seq<Descriptor>) {
    forall d, e, key :: d in ds && e in ds && Claims(d, key) && Claims(e, key) ==> d.path == e.path
  }

  /** What an error-free validation means: every descriptor is sound, and they share nothing a lookup goes by. */
  ghost predicate IsSound(ds: seq<Descriptor>, compiles: string -> bool) {
    && (forall d :: d in ds ==> IsSoundAlone(d, compiles))
    && (forall i, j :: 0 <= i < j < |ds| ==> Differ(ds[i], ds[j]))
    && Disjoint(ds)
  }

  // ----- the validator -----

  method ValidateTemplate(commandAliases: seq<string>, argv: seq<string>, needsSessionId: bool)
    returns (errors: seq<Problem>)
    ensures errors == [] <==> TemplateIsSound(commandAliases, argv, needsSessionId)
  {
    if argv == [] {
      return [EmptyTemplate];
    }
    errors := [];
    if argv[0] == SESSION_ID_PLACEHOLDER {
      errors := errors + [PlaceholderProgram];
    } else if argv[0] !in commandAliases {
      errors := errors + [ForeignProgram(argv[0])];
    }
    var placeholders := 0;
    for i := 0 to |argv|
      invariant placeholders == Count(argv[..i], SESSION_ID_PLACEHOLDER)
    {
      assert argv[..i + 1] == argv[..i] + [argv[i]];
      if argv[i] == SESSION_ID_PLACEHOLDER {
        placeholders := placeholders + 1;
      }
    }
    assert argv[..|argv|] == argv;
    if placeholders != (if needsSessionId then 1 else 0) {
      errors := errors + [PlaceholderCount];
    }
    ghost var sofar := errors;
    for i := 1 to |argv|
      invariant errors == [] <==>
                  sofar == [] && forall j :: 1 <= j < i ==> argv[j] == SESSION_ID_PLACEHOLDER || IsPlain(argv[j])
    {
      if argv[i] != SESSION_ID_PLACEHOLDER && !IsPlain(argv[i]) {
        errors := errors + [OddArgument(argv[i])];
      }
    }
  }

  method ValidateResume(commandAliases: seq<string>, resume: Resume, compiles: string -> bool)
    returns (errors: seq<Problem>)
    ensures errors == [] <==> ResumeIsSound(commandAliases, resume, compiles)
  {
    errors := ValidateTemplate(commandAliases, resume.sessionArgv, true);
    if resume.continueArgv.Some? {
      var more := ValidateTemplate(commandAliases, resume.continueArgv.value, false);
      errors := errors + more;
    }
    if resume.forkArgv.Some? {
      var more := ValidateTemplate(commandAliases, resume.forkArgv.value, true);
      errors := errors + more;
    }
    if !compiles(resume.sessionIdPattern) {
      errors := errors + [InvalidPattern];
    }
    if exists m :: m in resume.failureMarkers && Trim(m) == "" {
      errors := errors + [BlankMarker];
    }
  }

  /** One descriptor's claim to a lower-cased alias. */
  datatype Claim = Claim(key: string, path: string)

  ghost predicate Agree(claims: set<Claim>) {
    forall c, d :: c in claims && d in claims && c.key == d.key ==> c.path == d.path
  }

  /** The alias table holds a claim to every key claimed. */
  ghost predicate Tabulates(owners: map<string, string>, claims: set<Claim>) {
    && (forall c :: c in claims ==> c.key in owners)
    && (forall k :: k in owners ==> Claim(k, owners[k]) in claims)
  }

  ghost function ClaimsOf(aliases: seq<string>, path: string): (r: set<Claim>) {
    set a | a in aliases :: Claim(Lowercase(a), path)
  }

  lemma NextClaim(owners: map<string, string>, claims: set<Claim>, key: string, path: string)
    requires Tabulates(owners, claims)
    ensures Tabulates(owners[key := path], claims + {Claim(key, path)})
    ensures Agree(claims + {Claim(key, path)}) <==> Agree(claims) && (key in owners ==> owners[key] == path)
  {
    if key in owners {
      assert Claim(key, owners[key]) in claims;
    }
  }

  ghost function Elements(s: seq<string>): (r: set<string>) {
    set a | a in s
  }

  predicate AliasIsSound(alias: string, titlePrefix: Option<string>) {
    IsAlias(alias) && (alias in CONTESTED_ALIASES ==> titlePrefix.Some?)
  }

  /** The first `i` aliases, one after the other. */
  predicate SoundUpTo(aliases: seq<string>, i: nat, titlePrefix: Option<string>)
    requires i <= |aliases|
  {
    i == 0 || (SoundUpTo(aliases, i - 1, titlePrefix)
               && AliasIsSound(aliases[i - 1], titlePrefix) && aliases[i - 1] !in aliases[..i - 1])
  }

  lemma {:induction false} SoundUpToIsSound(aliases: seq<string>, i: nat, titlePrefix: Option<string>)
    requires i <= |aliases|
    ensures SoundUpTo(aliases, i, titlePrefix) <==> AliasesAreSound(aliases[..i], titlePrefix)
  {
    if i > 0 {
      SoundUpToIsSound(aliases, i - 1, titlePrefix);
      var a, b := aliases[..i], aliases[..i - 1];
      assert a == b + [aliases[i - 1]];
      if AliasesAreSound(a, titlePrefix) {
        assert forall j, k :: 0 <= j < k < |b| ==> b[j] == a[j] && b[k] == a[k];
        assert forall j :: 0 <= j < i - 1 ==> a[j] != a[i - 1];
      }
    }
  }

  ghost function ClaimsUpTo(aliases: seq<string>, i: nat, path: string): (r: set<Claim>)
    requires i <= |aliases|
  {
    if i == 0 then {} else ClaimsUpTo(aliases, i - 1, path) + {Claim(Lowercase(aliases[i - 1]), path)}
  }

  lemma {:induction false} ClaimsUpToAreClaims(aliases: seq<string>, i: nat, path: string)
    requires i <= |aliases|
    ensures ClaimsUpTo(aliases, i, path) == ClaimsOf(aliases[..i], path)
  {
    if i > 0 {
      ClaimsUpToAreClaims(aliases, i - 1, path);
      assert aliases[..i] == aliases[..i - 1] + [aliases[i - 1]];
      assert forall x :: x in aliases[..i] <==> x in aliases[..i - 1] || x == aliases[i - 1];
    }
  }

  /** The checks of one alias on its own. */
  method ValidateAlias(alias: string, titlePrefix: Option<string>, seen: bool) returns (errors: seq<Problem>)
    ensures errors == [] <==> AliasIsSound(alias, titlePrefix) && !seen
  {
    errors := if IsAlias(alias) then [] else [InvalidAlias(alias)];
    if seen {
      errors := errors + [DuplicateAlias(alias)];
    }
    if alias in CONTESTED_ALIASES && titlePrefix.None? {
      errors := errors + [Contested(alias)];
    }
  }

  /** The alias table after the first `i` aliases, and whether each found its key free or its own. */
  function TableAfter(aliases: seq<string>, i: nat, path: string, owners: map<string, string>): (r: map<string, string>)
    requires i <= |aliases|
  {
    if i == 0 then owners else TableAfter(aliases, i - 1, path, owners)[Lowercase(aliases[i - 1]) := path]
  }

  predicate FindsFree(aliases: seq<string>, i: nat, path: string, owners: map<string, string>)
    requires i <= |aliases|
  {
    i == 0 || (FindsFree(aliases, i - 1, path, owners)
               && var key, table := Lowercase(aliases[i - 1]), TableAfter(aliases, i - 1, path, owners);
                  key in table ==> table[key] == path)
  }

  lemma {:induction false} FreeKeysAgree(aliases: seq<string>, i: nat, path: string, owners: map<string, string>,
                                         claims: set<Claim>)
    requires i <= |aliases| && Tabulates(owners, claims)
    ensures Tabulates(TableAfter(aliases, i, path, owners), claims + ClaimsUpTo(aliases, i, path))
    ensures Agree(claims + ClaimsUpTo(aliases, i, path)) <==> Agree(claims) && FindsFree(aliases, i, path, owners)
  {
    if i == 0 {
      assert claims + {} == claims;
    } else {
      FreeKeysAgree(aliases, i - 1, path, owners, claims);
      var before, claim := claims + ClaimsUpTo(aliases, i - 1, path), Claim(Lowercase(aliases[i - 1]), path);
      NextClaim(TableAfter(aliases, i - 1, path, owners), before, claim.key, path);
      assert claims + ClaimsUpTo(aliases, i, path) == before + {claim};
    }
  }

  /** One alias field of one descriptor: an error is an alias unsound by itself, or one whose key another
      descriptor has in the table. */
  method ValidateAliases(aliases: seq<string>, titlePrefix: Option<string>, path: string, owners: map<string, string>)
    returns (errors: seq<Problem>, table: map<string, string>)
    ensures table == TableAfter(aliases, |aliases|, path, owners)
    ensures errors == [] <==> AliasesAreSound(aliases, titlePrefix) && FindsFree(aliases, |aliases|, path, owners)
  {
    errors, table := [], owners;
    var local: set<string> := {};
    for i := 0 to |aliases|
      invariant local == Elements(aliases[..i])
      invariant table == TableAfter(aliases, i, path, owners)
      invariant errors == [] <==> SoundUpTo(aliases, i, titlePrefix) && FindsFree(aliases, i, path, owners)
    {
      assert aliases[..i + 1] == aliases[..i] + [aliases[i]];
      var problems := ValidateAlias(aliases[i], titlePrefix, aliases[i] in local);
      local := local + {aliases[i]};
      var key := Lowercase(aliases[i]);
      if key in table && table[key] != path {
        problems := problems + [AliasConflict(aliases[i])];
      }
      table := table[key := path];
      errors := errors + problems;
    }
    SoundUpToIsSound(aliases, |aliases|, titlePrefix);
    assert aliases[..|aliases|] == aliases;
  }

  // ----- all descriptors -----

  function OwnersAfter(ds: seq<Descriptor>, i: nat): (r: map<string, string>)
    requires i <= |ds|
  {
    if i == 0 then map[]
    else
      var d := ds[i - 1];
      TableAfter(d.processAliases, |d.processAliases|, d.path, CommandOwners(d, OwnersAfter(ds, i - 1)))
  }

  function CommandOwners(d: Descriptor, owners: map<string, string>): (r: map<string, string>) {
    TableAfter(d.commandAliases, |d.commandAliases|, d.path, owners)
  }

  predicate FreeIn(d: Descriptor, owners: map<string, string>) {
    && FindsFree(d.commandAliases, |d.commandAliases|, d.path, owners)
    && FindsFree(d.processAliases, |d.processAliases|, d.path, CommandOwners(d, owners))
  }

  predicate FreeUpTo(ds: seq<Descriptor>, i: nat)
    requires i <= |ds|
  {
    i == 0 || (FreeUpTo(ds, i - 1) && FreeIn(ds[i - 1], OwnersAfter(ds, i - 1)))
  }

  function Ids(ds: seq<Descriptor>, i: nat): (r: set<string>)
    requires i <= |ds|
  {
    if i == 0 then {} else Ids(ds, i - 1) + {ds[i - 1].id}
  }

  function Orders(ds: seq<Descriptor>, i: nat): (r: set<nat>)
    requires i <= |ds|
  {
    if i == 0 then {} else Orders(ds, i - 1) + {ds[i - 1].order}
  }

  function VisibilityKeys(ds: seq<Descriptor>, i: nat): (r: set<string>)
    requires i <= |ds|
  {
    if i == 0 then {} else VisibilityKeys(ds, i - 1) + {ds[i - 1].visibilityKey}
  }

  /** The first `i` descriptors pass, one after the other. */
  predicate PassUpTo(ds: seq<Descriptor>, i: nat, compiles: string -> bool)
    requires i <= |ds|
  {
    i == 0 || (var d := ds[i - 1];
               && PassUpTo(ds, i - 1, compiles)
               && IsSoundAlone(d, compiles) && FreeIn(d, OwnersAfter(ds, i - 1))
               && d.id !in Ids(ds, i - 1) && d.order !in Orders(ds, i - 1)
               && d.visibilityKey !in VisibilityKeys(ds, i - 1))
  }

  lemma {:induction false} Collected(ds: seq<Descriptor>, i: nat, d: Descriptor)
    requires i <= |ds|
    ensures d.id !in Ids(ds, i) && d.order !in Orders(ds, i) && d.visibilityKey !in VisibilityKeys(ds, i)
       <==> forall k :: 0 <= k < i ==> Differ(ds[k], d)
  {
    if i > 0 {
      Collected(ds, i - 1, d);
    }
  }

  ghost predicate AllSound(ds: seq<Descriptor>, i: nat, compiles: string -> bool)
    requires i <= |ds|
  {
    forall k :: 0 <= k < i ==> IsSoundAlone(ds[k], compiles)
  }

  ghost predicate AllDiffer(ds: seq<Descriptor>, i: nat)
    requires i <= |ds|
  {
    forall j, k :: 0 <= j < k < i ==> Differ(ds[j], ds[k])
  }

  lemma OneMoreSound(ds: seq<Descriptor>, i: nat, compiles: string -> bool)
    requires 0 < i <= |ds|
    ensures AllSound(ds, i, compiles) <==> AllSound(ds, i - 1, compiles) && IsSoundAlone(ds[i - 1], compiles)
  {
  }

  lemma OneMoreDiffers(ds: seq<Descriptor>, i: nat)
    requires 0 < i <= |ds|
    ensures AllDiffer(ds, i)
       <==> AllDiffer(ds, i - 1) && ds[i - 1].id !in Ids(ds, i - 1) && ds[i - 1].order !in Orders(ds, i - 1)
            && ds[i - 1].visibilityKey !in VisibilityKeys(ds, i - 1)
  {
    Collected(ds, i - 1, ds[i - 1]);
  }

  lemma {:induction false} PassMeans(ds: seq<Descriptor>, i: nat, compiles: string -> bool)
    requires i <= |ds|
    ensures PassUpTo(ds, i, compiles) <==> AllSound(ds, i, compiles) && AllDiffer(ds, i) && FreeUpTo(ds, i)
  {
    if i > 0 {
      PassMeans(ds, i - 1, compiles);
      OneMoreSound(ds, i, compiles);
      OneMoreDiffers(ds, i);
    }
  }

  /** The checks of one descriptor that need no other, its aliases aside. */
  method ValidateAlone(d: Descriptor, compiles: string -> bool) returns (errors: seq<Problem>)
    ensures errors == [] <==> d.restIsSound && d.commandAliases != []
                              && (d.resume.Some? ==> ResumeIsSound(d.commandAliases, d.resume.value, compiles))
  {
    errors := if d.restIsSound then [] else [Unsound];
    if d.commandAliases == [] {
      errors := errors + [NoCommandAlias];
    }
    if d.resume.Some? {
      var more := ValidateResume(d.commandAliases, d.resume.value, compiles);
      errors := errors + more;
    }
  }

  /** Everything about one descriptor but its uniqueness. */
  method ValidateDescriptor(d: Descriptor, owners: map<string, string>, compiles: string -> bool)
    returns (errors: seq<Problem>, table: map<string, string>)
    ensures errors == [] <==> IsSoundAlone(d, compiles) && FreeIn(d, owners)
    ensures table == TableAfter(d.processAliases, |d.processAliases|, d.path, CommandOwners(d, owners))
  {
    errors := ValidateAlone(d, compiles);
    var more;
    more, table := ValidateAliases(d.commandAliases, d.titlePrefix, d.path, owners);
    errors := errors + more;
    more, table := ValidateAliases(d.processAliases, d.titlePrefix, d.path, table);
    errors := errors + more;
  }

  /** What one descriptor must not share with those before it, its aliases aside. */
  method ValidateUnique(d: Descriptor, ids: map<string, string>, orders: map<nat, string>, keys: map<string, string>)
    returns (errors: seq<Problem>)
    ensures errors == [] <==> d.id !in ids.Keys && d.order !in orders.Keys && d.visibilityKey !in keys.Keys
  {
    errors := if d.id in ids then [DuplicateId(d.id)] else [];
    if d.order in orders {
      errors := errors + [DuplicateOrder(d.order)];
    }
    if d.visibilityKey in keys {
      errors := errors + [DuplicateVisibilityKey(d.visibilityKey)];
    }
  }

  /** The validator: it reports no error exactly when the descriptors are sound. */
  method Validate(ds: seq<Descriptor>, compiles: string -> bool) returns (errors: seq<Problem>)
    ensures errors == [] <==> IsSound(ds, compiles)
  {
    errors := [];
    var ids: map<string, string>, orders: map<nat, string>, keys: map<string, string> := map[], map[], map[];
    var owners: map<string, string> := map[];
    for i := 0 to |ds|
      invariant ids.Keys == Ids(ds, i) && orders.Keys == Orders(ds, i) && keys.Keys == VisibilityKeys(ds, i)
      invariant owners == OwnersAfter(ds, i)
      invariant errors == [] <==> PassUpTo(ds, i, compiles)
    {
      var d := ds[i];
      var problems, table := ValidateDescriptor(d, owners, compiles);
      owners := table;
      var clashes := ValidateUnique(d, ids, orders, keys);
      ids, orders, keys := ids[d.id := d.path], orders[d.order := d.path], keys[d.visibilityKey := d.path];
      errors := errors + problems + clashes;
    }
    PassIsSound(ds, compiles);
  }

  // ----- what a free table means -----

  ghost function AllClaims(ds: seq<Descriptor>, i: nat): (r: set<Claim>)
    requires i <= |ds|
  {
    if i == 0 then {}
    else
      var d := ds[i - 1];
      AllClaims(ds, i - 1) + ClaimsUpTo(d.commandAliases, |d.commandAliases|, d.path)
      + ClaimsUpTo(d.processAliases, |d.processAliases|, d.path)
  }

  lemma {:induction false} FreeUpToAgrees(ds: seq<Descriptor>, i: nat)
    requires i <= |ds|
    ensures Tabulates(OwnersAfter(ds, i), AllClaims(ds, i))
    ensures Agree(AllClaims(ds, i)) <==> FreeUpTo(ds, i)
  {
    if i > 0 {
      FreeUpToAgrees(ds, i - 1);
      var d, owners, claims := ds[i - 1], OwnersAfter(ds, i - 1), AllClaims(ds, i - 1);
      FreeKeysAgree(d.commandAliases, |d.commandAliases|, d.path, owners, claims);
      FreeKeysAgree(d.processAliases, |d.processAliases|, d.path, CommandOwners(d, owners),
                    claims + ClaimsUpTo(d.commandAliases, |d.commandAliases|, d.path));
    }
  }

  lemma {:induction false} AllClaimsAreClaims(ds: seq<Descriptor>, i: nat, c: Claim)
    requires i <= |ds|
    ensures c in AllClaims(ds, i) <==> exists k :: 0 <= k < i && ds[k].path == c.path && Claims(ds[k], c.key)
  {
    if i > 0 {
      AllClaimsAreClaims(ds, i - 1, c);
      var d := ds[i - 1];
      ClaimsUpToAreClaims(d.commandAliases, |d.commandAliases|, d.path);
      ClaimsUpToAreClaims(d.processAliases, |d.processAliases|, d.path);
      assert d.commandAliases[..|d.commandAliases|] == d.commandAliases;
      assert d.processAliases[..|d.processAliases|] == d.processAliases;
    }
  }

  lemma ClaimsAreTabled(ds: seq<Descriptor>, d: Descriptor, key: string)
    requires d in ds && Claims(d, key)
    ensures Claim(key, d.path) in AllClaims(ds, |ds|)
  {
    AllClaimsAreClaims(ds, |ds|, Claim(key, d.path));
  }

  lemma ClaimHasOwner(ds: seq<Descriptor>, c: Claim) returns (d: Descriptor)
    requires c in AllClaims(ds, |ds|)
    ensures d in ds && d.path == c.path && Claims(d, c.key)
  {
    AllClaimsAreClaims(ds, |ds|, c);
    var k :| 0 <= k < |ds| && ds[k].path == c.path && Claims(ds[k], c.key);
    d := ds[k];
  }

  lemma DisjointAgrees(ds: seq<Descriptor>)
    requires Disjoint(ds)
    ensures Agree(AllClaims(ds, |ds|))
  {
    forall c, e | c in AllClaims(ds, |ds|) && e in AllClaims(ds, |ds|) && c.key == e.key
      ensures c.path == e.path
    {
      var x := ClaimHasOwner(ds, c);
      var y := ClaimHasOwner(ds, e);
    }
  }

  lemma FreeMeansDisjoint(ds: seq<Descriptor>)
    ensures FreeUpTo(ds, |ds|) <==> Disjoint(ds)
  {
    FreeUpToAgrees(ds, |ds|);
    if Disjoint(ds) {
      DisjointAgrees(ds);
    } else {
      var d, e, key :| d in ds && e in ds && Claims(d, key) && Claims(e, key) && d.path != e.path;
      ClaimsAreTabled(ds, d, key);
      ClaimsAreTabled(ds, e, key);
      assert !Agree(AllClaims(ds, |ds|));
    }
  }

  lemma PassIsSound(ds: seq<Descriptor>, compiles: string -> bool)
    ensures PassUpTo(ds, |ds|, compiles) <==> IsSound(ds, compiles)
  {
    PassMeans(ds, |ds|, compiles);
    FreeMeansDisjoint(ds);
  }

  // ----- what an error-free validation means -----

  /** Sound descriptors, one by one. */
  lemma SoundDescriptorsAre(ds: seq<Descriptor>, compiles: string -> bool, d: Descriptor)
    requires IsSound(ds, compiles) && d in ds
    ensures d.restIsSound && d.commandAliases != []
    ensures forall a :: a in d.commandAliases || a in d.processAliases ==>
              a != "" && (forall i :: 0 <= i < |a| ==>
                            'a' <= a[i] <= 'z' || '0' <= a[i] <= '9' || a[i] == '-' || a[i] == '_' || a[i] == '.')
    ensures "fx" in d.commandAliases || "fx" in d.processAliases ==> d.titlePrefix.Some?
    ensures |multiset(d.commandAliases)| == |set a | a in d.commandAliases|
    ensures |multiset(d.processAliases)| == |set a | a in d.processAliases|
    ensures d.resume.Some? ==>
              && compiles(d.resume.value.sessionIdPattern)
              && (forall m :: m in d.resume.value.failureMarkers ==> exists i :: 0 <= i < |m| && !IsWhitespace(m[i]))
  {
    DistinctElements(d.commandAliases);
    DistinctElements(d.processAliases);
    if d.resume.Some? {
      forall m | m in d.resume.value.failureMarkers
        ensures exists i :: 0 <= i < |m| && !IsWhitespace(m[i])
      {
        var before, after := TrimIs(m);
        assert m[|before|] == Trim(m)[0];
      }
    }
  }

  lemma {:induction false} DistinctElements(s: seq<string>)
    requires NoDuplicates(s)
    ensures |s| == |set a | a in s|
  {
    if s != [] {
      var n := |s| - 1;
      DistinctElements(s[..n]);
      var before, all := set a | a in s[..n], set a | a in s;
      assert s == s[..n] + [s[n]];
      assert all == before + {s[n]} && s[n] !in before;
    }
  }

  /** Sound templates, word by word: an own command first, then the placeholder once or never, and arguments of plain
      characters only. */
  lemma SoundTemplatesAre(commandAliases: seq<string>, argv: seq<string>, needsSessionId: bool)
    ensures TemplateIsSound(commandAliases, argv, needsSessionId) <==>
              && argv != [] && argv[0] in commandAliases && argv[0] != "{session_id}"
              && multiset(argv)["{session_id}"] == (if needsSessionId then 1 else 0)
              && forall i :: 1 <= i < |argv| && argv[i] != "{session_id}" ==>
                   argv[i] != "" && forall j :: 0 <= j < |argv[i]| ==>
                     var c := argv[i][j];
                     || 'a' <= c <= 'z' || 'A' <= c <= 'Z' || '0' <= c <= '9'
                     || c == '-' || c == '_' || c == '.' || c == '='
  {
  }

  // ----- the lookups -----

  predicate HasAlias(d: Descriptor, alias: string) {
    alias in d.commandAliases || alias in d.processAliases
  }

  /** The generated match: its arms in descriptor order, the first that lists the alias wins. */
  function CanonicalCommandForAlias(ds: seq<Descriptor>, alias: string): (r: Option<string>) {
    if ds == [] then None
    else if HasAlias(ds[0], alias) && ds[0].commandAliases != [] then Some(ds[0].commandAliases[0])
    else CanonicalCommandForAlias(ds[1..], alias)
  }

  function RuntimeByCommandAlias(ds: seq<Descriptor>, alias: string): (r: Option<Descriptor>) {
    if ds == [] then None
    else if alias in ds[0].commandAliases then Some(ds[0])
    else RuntimeByCommandAlias(ds[1..], alias)
  }

  /** Discovery gives every descriptor a directory of its own. */
  ghost predicate OwnDirectories(ds: seq<Descriptor>) {
    forall i, j :: 0 <= i < j < |ds| ==> ds[i].path != ds[j].path
  }

  lemma AliasHasOneOwner(ds: seq<Descriptor>, compiles: string -> bool, d: Descriptor, e: Descriptor, alias: string)
    requires IsSound(ds, compiles) && OwnDirectories(ds)
    requires d in ds && (alias in d.commandAliases || alias in d.processAliases)
    requires e in ds && (alias in e.commandAliases || alias in e.processAliases)
    ensures d == e
  {
    assert Claims(d, Lowercase(alias)) && Claims(e, Lowercase(alias));
  }

  lemma {:induction false} FirstMatchIsFound(ds: seq<Descriptor>, alias: string)
    requires forall d :: d in ds ==> d.commandAliases != []
    ensures var found := CanonicalCommandForAlias(ds, alias);
            (found.Some? ==> exists d :: d in ds && HasAlias(d, alias) && found == Some(d.commandAliases[0]))
            && (found.None? ==> forall d :: d in ds ==> !HasAlias(d, alias))
    ensures var found := RuntimeByCommandAlias(ds, alias);
            (found.Some? ==> found.value in ds && alias in found.value.commandAliases)
            && (found.None? ==> forall d :: d in ds ==> alias !in d.commandAliases)
  {
    if ds != [] {
      FirstMatchIsFound(ds[1..], alias);
      assert forall d :: d in ds <==> d == ds[0] || d in ds[1..];
    }
  }

  /** After an error-free validation an alias looks up its one owner's first command, and its owner; an alias nobody
      declares looks up nothing. */
  lemma LookupsFindTheOwner(ds: seq<Descriptor>, compiles: string -> bool, alias: string)
    requires IsSound(ds, compiles) && OwnDirectories(ds)
    ensures forall d :: d in ds && (alias in d.commandAliases || alias in d.processAliases) ==>
              CanonicalCommandForAlias(ds, alias) == Some(d.commandAliases[0])
    ensures forall d :: d in ds && alias in d.commandAliases ==> RuntimeByCommandAlias(ds, alias) == Some(d)
    ensures (forall d :: d in ds ==> !HasAlias(d, alias)) ==> CanonicalCommandForAlias(ds, alias) == None
  {
    FirstMatchIsFound(ds, alias);
    forall d, e | d in ds && e in ds && HasAlias(d, alias) && HasAlias(e, alias)
      ensures d == e
    {
      AliasHasOneOwner(ds, compiles, d, e, alias);
    }
  }

  /** So the order of the generated arms does not matter. */
  lemma LookupsIgnoreOrder(ds: seq<Descriptor>, es: seq<Descriptor>, compiles: string -> bool, alias: string)
    requires IsSound(ds, compiles) && OwnDirectories(ds)
    requires forall d :: d in ds <==> d in es
    ensures CanonicalCommandForAlias(es, alias) == CanonicalCommandForAlias(ds, alias)
    ensures RuntimeByCommandAlias(es, alias) == RuntimeByCommandAlias(ds, alias)
  {
    FirstMatchIsFound(ds, alias);
    FirstMatchIsFound(es, alias);
    LookupsFindTheOwner(ds, compiles, alias);
    forall d, e | d in ds && e in ds && HasAlias(d, alias) && HasAlias(e, alias)
      ensures d == e
    {
      AliasHasOneOwner(ds, compiles, d, e, alias);
    }
  }

  /** The canonical command of an alias is its own canonical command. */
  lemma LookupIsIdempotent(ds: seq<Descriptor>, compiles: string -> bool, alias: string)
    requires IsSound(ds, compiles) && OwnDirectories(ds)
    requires CanonicalCommandForAlias(ds, alias).Some?
    ensures var command := CanonicalCommandForAlias(ds, alias).value;
            CanonicalCommandForAlias(ds, command) == Some(command)
  {
    FirstMatchIsFound(ds, alias);
    var d :| d in ds && HasAlias(d, alias) && CanonicalCommandForAlias(ds, alias) == Some(d.commandAliases[0]);
    LookupsFindTheOwner(ds, compiles, d.commandAliases[0]);
  }
}
