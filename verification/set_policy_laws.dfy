/** What setting a policy guarantees about the service: for one call, for a repeated call, and over
    every run of calls, however the service answers. */
module SetPolicyLaws {
  import opened Wrappers
  import opened PolicyModel
  import opened PolicyCompiler
  import opened CloudService
  import opened SetPolicy
  import opened PolicyMeaning
  import opened Text

  // ---------- sound states ----------

  ghost predicate DistinctIds(st: State) {
    && (forall k | 0 <= k < |st.templates| :: st.templates[k].id < st.nextId)
    && forall i, j | 0 <= i < j < |st.templates| :: st.templates[i].id != st.templates[j].id
  }

  ghost predicate AliasesPoint(st: State) {
    forall a, alias | a in st.apps && st.apps[a].aliases.Some? && alias in st.apps[a].aliases.value ::
      TemplateExists(st, st.apps[a].aliases.value[alias])
  }

  /** Template ids are unique and below the next one, and every alias names an existing template. */
  ghost predicate Sound(st: State) {
    DistinctIds(st) && AliasesPoint(st)
  }

  predicate HasAlias(st: State, appName: string, alias: string) {
    appName in st.apps && st.apps[appName].aliases.Some? && alias in st.apps[appName].aliases.value
  }

  // ---------- the template ----------

  /** Nothing is lost: templates keep their places, ids and names, and those of other names their
      contents; at most one is added, at the end. */
  ghost predicate OnlyNamedChanged(before: seq<StoredTemplate>, after: seq<StoredTemplate>, name: string) {
    && |before| <= |after| <= |before| + 1
    && (forall k | 0 <= k < |before| ::
          && after[k].id == before[k].id && after[k].request.name == before[k].request.name
          && (before[k].request.name != name ==> after[k] == before[k]))
    && (|after| > |before| ==> after[|before|].request.name == name && forall t | t in before :: t.request.name != name)
  }

  lemma {:induction false} FirstNamedIs(templates: seq<StoredTemplate>, name: string, k: nat)
    requires k < |templates| && templates[k].request.name == name
    requires forall j | 0 <= j < k :: templates[j].request.name != name
    ensures FirstNamed(templates, name) == Some(templates[k])
  {
    if k > 0 {
      FirstNamedIs(templates[1..], name, k - 1);
    }
  }

  lemma {:induction false} FirstNamedAt(templates: seq<StoredTemplate>, name: string) returns (k: nat)
    requires FirstNamed(templates, name).Some?
    ensures k < |templates| && templates[k].request.name == name && FirstNamed(templates, name).value == templates[k]
    ensures forall j | 0 <= j < k :: templates[j].request.name != name
  {
    if templates[0].request.name == name {
      k := 0;
    } else {
      var rest := FirstNamedAt(templates[1..], name);
      k := rest + 1;
    }
  }

  /** Writing a template changes the template of that name only, and the applications not at all. */
  lemma TemplateFrame(svc: Service, st: State, req: CitRequest)
    requires DistinctIds(st)
    ensures var after := WriteTemplate(svc, st, req).1;
            OnlyNamedChanged(st.templates, after.templates, req.name) && DistinctIds(after) && after.apps == st.apps
  {
    if FirstNamed(st.templates, req.name).Some? {
      var k := FirstNamedAt(st.templates, req.name);
    }
  }

  /** The service has accepted the template, and its answer holds it: the template was there before or
      is listed in the answer. */
  predicate TemplateAnswered(svc: Service, st: State, name: string) {
    svc.templateReply == Accepted && (FirstNamed(st.templates, name).Some? || svc.createAnswerLists)
  }

  /** An accepted write leaves the request under its name, with the id the template had, and that
      template is handed on if the answer holds it. */
  lemma TemplateIsThere(svc: Service, st: State, req: CitRequest)
    requires DistinctIds(st) && svc.templateReply == Accepted
    ensures var (t, after) := WriteTemplate(svc, st, req);
            var stored := FirstNamed(after.templates, req.name);
            && stored == Some(StoredTemplate(IdFor(st, req.name), req))
            && (FirstNamed(st.templates, req.name).Some? ==>
                  stored.value.id == FirstNamed(st.templates, req.name).value.id)
            && t == if TemplateAnswered(svc, st, req.name) then Ok(stored.value) else Panic
  {
    var after := WriteTemplate(svc, st, req).1;
    if FirstNamed(st.templates, req.name).Some? {
      var k := FirstNamedAt(st.templates, req.name);
      FirstNamedIs(after.templates, req.name, k);
    } else {
      FirstNamedIs(after.templates, req.name, |st.templates|);
    }
  }

  lemma StillExists(before: State, after: State, name: string, id: nat)
    requires OnlyNamedChanged(before.templates, after.templates, name) && TemplateExists(before, id)
    ensures TemplateExists(after, id)
  {
    var t :| t in before.templates && t.id == id;
    var k :| 0 <= k < |before.templates| && before.templates[k] == t;
    assert after.templates[k] in after.templates;
  }

  // ---------- the application ----------

  /** Of an application only what the call is about has changed: the alias, the owners when users are
      given, and the discovery flag, which is cleared. */
  ghost predicate OnlyLinkChanged(was: Application, now: Application, alias: string, users: seq<string>) {
    && now.description == was.description && now.networks == was.networks
    && (users == [] ==> now.owners == was.owners)
    && (now.startTargetedDiscovery ==> was.startTargetedDiscovery)
    && (now.aliases.Some? <==> was.aliases.Some?)
    && (was.aliases.Some? ==> forall x | x != alias ::
          (x in now.aliases.value <==> x in was.aliases.value)
          && (x in was.aliases.value ==> now.aliases.value[x] == was.aliases.value[x]))
  }

  /** Nothing but the named application changes, and that as it may. */
  ghost predicate OnlyAppChanged(before: map<string, Application>, after: map<string, Application>, appName: string,
                                 alias: string, users: seq<string>)
  {
    && (forall a | a in before :: a in after && (a != appName ==> after[a] == before[a]))
    && (forall a | a in after :: a in before || a == appName)
    && (appName in before ==> OnlyLinkChanged(before[appName], after[appName], alias, users))
  }

  lemma PutFrame(svc: Service, st: State, appName: string, app: Application, alias: string, users: seq<string>)
    requires appName in st.apps
    requires OnlyLinkChanged(st.apps[appName], app.(startTargetedDiscovery := false), alias, users)
    ensures var after := PutApp(svc, st, appName, app).1;
            && OnlyAppChanged(st.apps, after.apps, appName, alias, users)
            && after.templates == st.templates && after.nextId == st.nextId
  {}

  lemma UpdateFrame(svc: Service, st: State, appName: string, users: seq<string>, t: StoredTemplate)
    requires appName in st.apps
    ensures var after := UpdateApp(svc, st, appName, users, t).1;
            && OnlyAppChanged(st.apps, after.apps, appName, t.request.name, users)
            && after.templates == st.templates && after.nextId == st.nextId
  {
    var app, linked := st.apps[appName], Linked(svc, st, appName, t.request.name);
    if linked || app.aliases.Some? {
      var withAlias := if linked then app else app.(aliases := Some(app.aliases.value[t.request.name := t.id]));
      if users == [] {
        PutFrame(svc, st, appName, withAlias, t.request.name, users);
      } else if OwnersOf(svc, users).Ok? {
        PutFrame(svc, st, appName, withAlias.(owners := OwnersOf(svc, users).value), t.request.name, users);
      }
    }
  }

  lemma AppFrame(svc: Service, st: State, appName: string, users: seq<string>, t: StoredTemplate)
    ensures var after := LinkApp(svc, st, appName, users, t).1;
            && OnlyAppChanged(st.apps, after.apps, appName, t.request.name, users)
            && after.templates == st.templates && after.nextId == st.nextId
  {
    if LookupError(svc, st, appName) == None {
      UpdateFrame(svc, st, appName, users, t);
    }
  }

  lemma AppliedFrame(svc: Service, st: State, name: string, req: CitRequest, users: seq<string>)
    requires DistinctIds(st)
    ensures var after := Applied(svc, st, name, req, users).1;
            && OnlyNamedChanged(st.templates, after.templates, req.name) && DistinctIds(after)
            && OnlyAppChanged(st.apps, after.apps, ApplicationName(name), req.name, users)
  {
    TemplateFrame(svc, st, req);
    var (t, written) := WriteTemplate(svc, st, req);
    if t.Ok? {
      AppFrame(svc, written, ApplicationName(name), users, t.value);
    }
  }

  /** Every call, whatever comes of it, leaves all else as it was. */
  lemma EverythingElseStays(svc: Service, st: State, name: string, ps: PolicySpec)
    requires DistinctIds(st)
    ensures var after := Setting(svc, st, name, ps).1;
            && OnlyNamedChanged(st.templates, after.templates, CitName(name)) && DistinctIds(after)
            && OnlyAppChanged(st.apps, after.apps, ApplicationName(name), CitName(name), ps.users)
  {
    if Prepared(svc, name, ps).Ok? {
      AppliedFrame(svc, st, name, Prepared(svc, name, ps).value, ps.users);
    }
  }

  // ---------- success ----------

  lemma LinkedApp(svc: Service, st: State, app: string, users: seq<string>, t: StoredTemplate)
    requires LinkApp(svc, st, app, users, t).0.Ok?
    ensures var after := LinkApp(svc, st, app, users, t).1;
            app in after.apps && AliasSet(svc, st, after, app, t.request.name, t.id)
  {}

  /** Writing the template does not change whether the alias works, unless it was dangling and names
      the id just given out. */
  lemma LinkedAfterWrite(svc: Service, st: State, req: CitRequest, app: string)
    requires DistinctIds(st)
    ensures Linked(svc, st, app, req.name) ==> Linked(svc, WriteTemplate(svc, st, req).1, app, req.name)
    ensures AliasesPoint(st) ==>
              (Linked(svc, WriteTemplate(svc, st, req).1, app, req.name) <==> Linked(svc, st, app, req.name))
  {
    TemplateFrame(svc, st, req);
    var after := WriteTemplate(svc, st, req).1;
    if Linked(svc, st, app, req.name) {
      StillExists(st, after, req.name, st.apps[app].aliases.value[req.name]);
    }
  }

  /** A call that succeeds has written its template and linked it. */
  lemma SuccessSteps(svc: Service, st: State, name: string, ps: PolicySpec)
    returns (req: CitRequest, t: StoredTemplate, written: State)
    requires Setting(svc, st, name, ps).0.Ok?
    ensures Prepared(svc, name, ps) == Ok(req) && req.name == CitName(name) && ApplicationName(name) != ""
    ensures svc.listingWorks && TemplateAnswered(svc, st, req.name) && WriteTemplate(svc, st, req) == (Ok(t), written)
    ensures Setting(svc, st, name, ps) == LinkApp(svc, written, ApplicationName(name), ps.users, t)
    ensures t.request == req
  {
    req := Prepared(svc, name, ps).value;
    t, written := WriteTemplate(svc, st, req).0.value, WriteTemplate(svc, st, req).1;
  }

  /** Where the alias of a set policy points: a working alias found by the lookup keeps pointing where it
      did, even at another template; any other points at the template just written once the service has
      accepted the application. */
  ghost predicate AliasSet(svc: Service, st: State, after: State, app: string, alias: string, id: nat) {
    && (HasAlias(after, app, alias) <==> HasAlias(st, app, alias) || svc.appReply == Accepted)
    && (HasAlias(after, app, alias) ==>
          after.apps[app].aliases.value[alias] ==
            if svc.appReply == Accepted && !Linked(svc, st, app, alias) then id else st.apps[app].aliases.value[alias])
  }

  /** Who owns the application of a set policy: one that is new those named, or else the current user;
      one there before those named, but only if the service has accepted the update, and otherwise those
      who owned it. */
  predicate OwnersSet(svc: Service, st: State, after: State, app: string, users: seq<string>)
    requires app in after.apps
  {
    var owners := after.apps[app].owners;
    if users == [] then
      if app in st.apps then owners == st.apps[app].owners
      else svc.userDetails.CurrentUser? && owners == [User(svc.userDetails.id)]
    else
      && OwnersOf(svc, users).Ok? && (app !in st.apps ==> svc.appReply == Accepted)
      && owners == if svc.appReply == Accepted then OwnersOf(svc, users).value else st.apps[app].owners
  }

  lemma LinkedOwners(svc: Service, st: State, app: string, users: seq<string>, t: StoredTemplate)
    requires LinkApp(svc, st, app, users, t).0.Ok?
    ensures var after := LinkApp(svc, st, app, users, t).1;
            app in after.apps && OwnersSet(svc, st, after, app, users)
  {}

  /** What success means: the compiled request is stored under the template's name, and the application
      exists. Its alias is in place exactly if it was there before or the service accepted the
      application, the status of an update never being looked at; likewise its owners. */
  lemma SuccessMeans(svc: Service, st: State, name: string, ps: PolicySpec)
    requires Sound(st) && Setting(svc, st, name, ps).0.Ok?
    ensures var after := Setting(svc, st, name, ps).1;
            var stored := FirstNamed(after.templates, CitName(name));
            && stored.Some? && Prepared(svc, name, ps) == Ok(stored.value.request)
            && ApplicationName(name) in after.apps
            && AliasSet(svc, st, after, ApplicationName(name), CitName(name), stored.value.id)
            && OwnersSet(svc, st, after, ApplicationName(name), ps.users)
  {
    var app := ApplicationName(name);
    var req, t, written := SuccessSteps(svc, st, name, ps);
    TemplateFrame(svc, st, req);
    TemplateIsThere(svc, st, req);
    LinkedAfterWrite(svc, st, req, app);
    LinkedApp(svc, written, app, ps.users, t);
    LinkedOwners(svc, written, app, ps.users, t);
    AppFrame(svc, written, app, ps.users, t);
  }

  // ---------- the zone, segment by segment ----------

  /** The request is compiled for the named authority, or else the built-in one, and bears the name. */
  predicate CompiledFor(svc: Service, ps: PolicySpec, cit: string, req: CitRequest) {
    var ca := svc.authority(NamedAuthority(ps));
    ca.Some? && Compile(ps, ca.value).Ok? && req == Compile(ps, ca.value).value.(name := cit)
  }

  lemma PreparedMeans(svc: Service, name: string, ps: PolicySpec)
    ensures Prepared(svc, name, ps).Ok? ==>
              && svc.authenticated && Validate(ps) == Ok(())
              && CompiledFor(svc, ps, CitName(name), Prepared(svc, name, ps).value)
  {
    AuthorityIs(ps);
  }

  lemma TwoSegments(app: string, cit: string)
    requires '\\' !in app && '\\' !in cit
    ensures ApplicationName(app + ['\\'] + cit) == app && CitName(app + ['\\'] + cit) == cit
  {
    SplitCons(app, '\\', cit);
    SplitNoSep(cit, '\\');
  }

  lemma LinkedNewApp(svc: Service, st: State, app: string, users: seq<string>, t: StoredTemplate)
    requires LinkApp(svc, st, app, users, t).0.Ok? && app !in st.apps
    ensures var after := LinkApp(svc, st, app, users, t).1;
            app in after.apps
            && after.apps[app] == Application(after.apps[app].owners, "", [], Some(map[t.request.name := t.id]), false)
  {}

  lemma NewAppIs(svc: Service, st: State, name: string, ps: PolicySpec)
    requires Sound(st) && Setting(svc, st, name, ps).0.Ok?
    ensures var (app, after) := (ApplicationName(name), Setting(svc, st, name, ps).1);
            var stored := FirstNamed(after.templates, CitName(name));
            app !in st.apps ==>
              && app in after.apps && stored.Some?
              && after.apps[app]
                 == Application(after.apps[app].owners, "", [], Some(map[CitName(name) := stored.value.id]), false)
  {
    var app := ApplicationName(name);
    var req, t, written := SuccessSteps(svc, st, name, ps);
    TemplateFrame(svc, st, req);
    TemplateIsThere(svc, st, req);
    AppFrame(svc, written, app, ps.users, t);
    if app !in st.apps {
      LinkedNewApp(svc, written, app, ps.users, t);
    }
  }

  /** Who a name stands for: the first user the service finds, or else the first team of that name. */
  lemma {:induction false} TeamNamedIff(teams: seq<TeamEntry>, name: string, id: string)
    ensures TeamNamed(teams, name) == Some(id) <==>
              exists k | 0 <= k < |teams| ::
                teams[k] == TeamEntry(name, id) && forall j | 0 <= j < k :: teams[j].name != name
  {
    if teams != [] {
      var rest := teams[1..];
      TeamNamedIff(rest, name, id);
      if teams[0].name == name {
        assert teams[0] == TeamEntry(name, teams[0].id);
      } else {
        if k :| 0 <= k < |rest| && rest[k] == TeamEntry(name, id) && forall j | 0 <= j < k :: rest[j].name != name {
          assert teams[k + 1] == TeamEntry(name, id);
          assert forall j | 0 < j < k + 1 :: teams[j] == rest[j - 1];
        }
        if k :| 0 <= k < |teams| && teams[k] == TeamEntry(name, id)
                && forall j | 0 <= j < k :: teams[j].name != name {
          assert rest[k - 1] == TeamEntry(name, id);
          assert forall j | 0 <= j < k - 1 :: rest[j] == teams[j + 1];
        }
      }
    }
  }

  lemma OwnerMeaning(svc: Service, name: string, id: string)
    ensures OwnerOf(svc, name) == Ok(User(id)) <==>
              svc.users(name).UsersFound? && svc.users(name).ids != [] && svc.users(name).ids[0] == id
    ensures OwnerOf(svc, name) == Ok(Team(id)) <==>
              && svc.users(name) == UserNotFound && svc.teams.Some?
              && exists k | 0 <= k < |svc.teams.value| ::
                   svc.teams.value[k] == TeamEntry(name, id) && forall j | 0 <= j < k :: svc.teams.value[j].name != name
    ensures OwnerOf(svc, name) == Panic <==> svc.users(name) == UsersFound([])
  {
    if svc.teams.Some? {
      TeamNamedIff(svc.teams.value, name, id);
    }
  }

  /** A zone of two segments names the application, then the template: what success means for it. The
      template of that name holds the request compiled from the specification with the details of its
      authority. The application exists; its alias is the template's name, and names what it named if the
      lookup found it, or if the write was not accepted, and otherwise the template stored; it is owned as
      asked. A new application has nothing else set. */
  lemma SuccessMeansFor(svc: Service, st: State, app: string, cit: string, ps: PolicySpec)
    requires Sound(st) && '\\' !in app && '\\' !in cit
    ensures var (status, after) := Setting(svc, st, app + ['\\'] + cit, ps);
            var stored := FirstNamed(after.templates, cit);
            status.Ok? ==>
              && app != "" && cit != ""
              && stored.Some? && stored.value.request.name == cit
              && svc.authenticated && Validate(ps) == Ok(())
              && CompiledFor(svc, ps, cit, stored.value.request)
              && app in after.apps && AliasSet(svc, st, after, app, cit, stored.value.id)
              && OwnersSet(svc, st, after, app, ps.users)
              && (app !in st.apps ==>
                    after.apps[app]
                    == Application(after.apps[app].owners, "", [], Some(map[cit := stored.value.id]), false))
  {
    var name := app + ['\\'] + cit;
    TwoSegments(app, cit);
    if Setting(svc, st, name, ps).0.Ok? {
      SuccessMeans(svc, st, name, ps);
      PreparedMeans(svc, name, ps);
      NewAppIs(svc, st, name, ps);
    }
  }

  /** And whatever comes of the call, it touches no template but `cit`, and no application but `app`. */
  lemma EverythingElseStaysFor(svc: Service, st: State, app: string, cit: string, ps: PolicySpec)
    requires DistinctIds(st) && '\\' !in app && '\\' !in cit
    ensures var after := Setting(svc, st, app + ['\\'] + cit, ps).1;
            && OnlyNamedChanged(st.templates, after.templates, cit)
            && OnlyAppChanged(st.apps, after.apps, app, cit, ps.users)
  {
    TwoSegments(app, cit);
    EverythingElseStays(svc, st, app + ['\\'] + cit, ps);
  }

  /** What becomes of the specification itself, for such a zone: once it is checked, a policy in it names its
      authority, and nothing else changes; before that, and without a policy, nothing does. */
  lemma SpecificationAfter(svc: Service, app: string, cit: string, ps: PolicySpec)
    requires '\\' !in app && '\\' !in cit
    ensures Filled(svc, app + ['\\'] + cit, ps) ==
              if svc.authenticated && Validate(ps) == Ok(()) && cit != "" && ps.policy.Some?
              then ps.(policy := Some(ps.policy.value.(certificateAuthority := Some(NamedAuthority(ps)))))
              else ps
  {
    TwoSegments(app, cit);
    AuthorityIs(ps);
  }

  /** The call leaves its names in the connector's zone exactly if it finds the application there. */
  lemma AliasIsLookedUpIff(svc: Service, st: State, app: string, cit: string, ps: PolicySpec)
    requires DistinctIds(st) && '\\' !in app && '\\' !in cit
    ensures LooksUpAlias(svc, st, app + ['\\'] + cit, ps) <==>
              && Prepared(svc, app + ['\\'] + cit, ps).Ok? && svc.listingWorks && TemplateAnswered(svc, st, cit)
              && app != "" && svc.lookupFails == None && app in st.apps
  {
    TwoSegments(app, cit);
    if Prepared(svc, app + ['\\'] + cit, ps).Ok? {
      TemplateFrame(svc, st, Prepared(svc, app + ['\\'] + cit, ps).value);
    }
  }

  /** A zone of one segment, or of three and more, changes nothing, whatever the service would answer: it
      names no template. */
  lemma OtherSegments(svc: Service, st: State, name: string, ps: PolicySpec)
    requires '\\' !in name
          || exists a, b, c :: name == a + ['\\'] + (b + ['\\'] + c) && '\\' !in a && '\\' !in b
    ensures Setting(svc, st, name, ps).1 == st && !Setting(svc, st, name, ps).0.Ok?
    ensures svc.authenticated && Validate(ps) == Ok(()) ==> Setting(svc, st, name, ps).0 == Err(NoTemplateName)
  {
    NoSecondOfTwo(name);
  }

  lemma NoSecondOfTwo(name: string)
    requires '\\' !in name
          || exists a, b, c :: name == a + ['\\'] + (b + ['\\'] + c) && '\\' !in a && '\\' !in b
    ensures CitName(name) == ""
  {
    if '\\' !in name {
      SplitNoSep(name, '\\');
    } else {
      var a, b, c :| name == a + ['\\'] + (b + ['\\'] + c) && '\\' !in a && '\\' !in b;
      SplitCons(a, '\\', b + ['\\'] + c);
      SplitCons(b, '\\', c);
    }
  }

  // ---------- repeating a call ----------

  lemma WriteAgain(svc: Service, st: State, req: CitRequest)
    requires DistinctIds(st) && TemplateAnswered(svc, st, req.name)
    ensures var (t, after) := WriteTemplate(svc, st, req);
            WriteTemplate(svc, after, req) == (t, after)
  {
    TemplateIsThere(svc, st, req);
    TemplateFrame(svc, st, req);
    var (t, after) := WriteTemplate(svc, st, req);
    var again := PutTemplate(after, t.value.id, req);
    var k := FirstNamedAt(after.templates, req.name);
    assert again.templates == after.templates;
  }

  /** Linking a second time changes nothing and succeeds, unless the application's lookup fails again:
      then it cannot be created a second time. */
  lemma LinkAgain(svc: Service, st: State, app: string, users: seq<string>, t: StoredTemplate)
    requires t in st.templates && LinkApp(svc, st, app, users, t).0.Ok?
    ensures var after := LinkApp(svc, st, app, users, t).1;
            LinkApp(svc, after, app, users, t) ==
              (if svc.lookupFails == None then Ok("") else Err(ServiceFailed), after)
  {
    var alias, after := t.request.name, LinkApp(svc, st, app, users, t).1;
    LinkedApp(svc, st, app, users, t);
    AppFrame(svc, st, app, users, t);
    assert HasAlias(after, app, alias) ==> after.apps[app].aliases.value[alias := after.apps[app].aliases.value[alias]]
                                           == after.apps[app].aliases.value;
    assert after.apps[app := after.apps[app]] == after.apps;
  }

  /** Idempotence: repeating a successful call, with the specification as the first call left it, succeeds
      exactly if the application can be looked up, and in any case leaves the service as it is. */
  lemma Idempotent(svc: Service, st: State, name: string, ps: PolicySpec)
    requires Sound(st) && Setting(svc, st, name, ps).0.Ok?
    ensures var after := Setting(svc, st, name, ps).1;
            Setting(svc, after, name, Filled(svc, name, ps)) ==
              (if svc.lookupFails == None then Ok("") else Err(ServiceFailed), after)
  {
    var app := ApplicationName(name);
    var req, t, written := SuccessSteps(svc, st, name, ps);
    TemplateIsThere(svc, st, req);
    WriteAgain(svc, st, req);
    AppFrame(svc, written, app, ps.users, t);
    var after := LinkApp(svc, written, app, ps.users, t).1;
    SameTemplates(svc, written, after, req);
    assert t in written.templates;
    LinkAgain(svc, written, app, ps.users, t);
    PreparedAgain(svc, name, ps);
  }

  /** Writing a template depends on the templates alone. */
  lemma SameTemplates(svc: Service, a: State, b: State, req: CitRequest)
    requires a.templates == b.templates && a.nextId == b.nextId && WriteTemplate(svc, a, req).1 == a
    ensures WriteTemplate(svc, b, req) == (WriteTemplate(svc, a, req).0, b)
  {}

  lemma PreparedAgain(svc: Service, name: string, ps: PolicySpec)
    ensures Prepared(svc, name, Filled(svc, name, ps)) == Prepared(svc, name, ps)
    ensures Filled(svc, name, ps).users == ps.users
  {
    WithAuthorityCompiles(ps);
  }

  // ---------- failure ----------

  /** Once the service has accepted the template it holds the request, whatever becomes of the rest of
      the call: an answer without the template, a missing application name, an owner that is not found. */
  lemma TemplateOutlivesFailure(svc: Service, st: State, name: string, ps: PolicySpec)
    requires DistinctIds(st) && Prepared(svc, name, ps).Ok? && svc.listingWorks && svc.templateReply == Accepted
    ensures var stored := FirstNamed(Setting(svc, st, name, ps).1.templates, CitName(name));
            stored.Some? && stored.value.request == Prepared(svc, name, ps).value
    ensures ApplicationName(name) == "" ==>
              Setting(svc, st, name, ps).0 ==
                if TemplateAnswered(svc, st, CitName(name)) then Err(NoApplicationName) else Panic
  {
    StoredAfter(svc, st, name, ps);
    if ApplicationName(name) == "" {
      NamelessAfter(svc, st, name, ps);
    }
  }

  lemma StoredAfter(svc: Service, st: State, name: string, ps: PolicySpec)
    requires DistinctIds(st) && Prepared(svc, name, ps).Ok? && svc.listingWorks && svc.templateReply == Accepted
    ensures var stored := FirstNamed(Setting(svc, st, name, ps).1.templates, CitName(name));
            stored.Some? && stored.value.request == Prepared(svc, name, ps).value
  {
    var req := Prepared(svc, name, ps).value;
    assert req.name == CitName(name);
    AppliedStores(svc, st, name, req, ps.users);
  }

  lemma NamelessAfter(svc: Service, st: State, name: string, ps: PolicySpec)
    requires DistinctIds(st) && Prepared(svc, name, ps).Ok? && svc.listingWorks && svc.templateReply == Accepted
    requires ApplicationName(name) == ""
    ensures Setting(svc, st, name, ps).0 ==
              if TemplateAnswered(svc, st, CitName(name)) then Err(NoApplicationName) else Panic
  {
    var req := Prepared(svc, name, ps).value;
    assert req.name == CitName(name);
    NamelessApplied(svc, st, name, req, ps.users);
  }

  lemma AppliedStores(svc: Service, st: State, name: string, req: CitRequest, users: seq<string>)
    requires DistinctIds(st) && svc.listingWorks && svc.templateReply == Accepted
    ensures var stored := FirstNamed(Applied(svc, st, name, req, users).1.templates, req.name);
            stored.Some? && stored.value.request == req
  {
    TemplateIsThere(svc, st, req);
    var (t, written) := WriteTemplate(svc, st, req);
    if t.Ok? {
      AppFrame(svc, written, ApplicationName(name), users, t.value);
    }
  }

  lemma NamelessApplied(svc: Service, st: State, name: string, req: CitRequest, users: seq<string>)
    requires DistinctIds(st) && svc.listingWorks && svc.templateReply == Accepted
    requires ApplicationName(name) == ""
    ensures Applied(svc, st, name, req, users).0 ==
              if TemplateAnswered(svc, st, req.name) then Err(NoApplicationName) else Panic
  {
    TemplateIsThere(svc, st, req);
  }

  /** The template of that name holds the request already. */
  predicate HoldsAlready(st: State, req: CitRequest) {
    var found := FirstNamed(st.templates, req.name);
    found.Some? && found.value.request == req
  }

  lemma WriteChangesIff(svc: Service, st: State, req: CitRequest)
    requires DistinctIds(st)
    ensures WriteTemplate(svc, st, req).1.templates == st.templates
       <==> svc.templateReply in {Refused, NoAnswer(false)} || HoldsAlready(st, req)
  {
    var found, after := FirstNamed(st.templates, req.name), WriteTemplate(svc, st, req).1;
    if found.Some? {
      var k := FirstNamedAt(st.templates, req.name);
      if svc.templateReply in {Accepted, NoAnswer(true)} {
        assert after.templates[k] == StoredTemplate(found.value.id, req);
        if HoldsAlready(st, req) {
          assert forall j | 0 <= j < |st.templates| :: after.templates[j] == st.templates[j];
        }
      }
    } else if svc.templateReply in {Accepted, NoAnswer(true)} {
      assert |after.templates| == |st.templates| + 1;
    }
  }

  /** A call leaves all templates as they were exactly if it did not get as far as writing one, the
      write was not done, or it changed nothing. */
  lemma TemplatesStayIff(svc: Service, st: State, name: string, ps: PolicySpec)
    requires DistinctIds(st)
    ensures Setting(svc, st, name, ps).1.templates == st.templates <==>
              || !Prepared(svc, name, ps).Ok?
              || !svc.listingWorks
              || svc.templateReply in {Refused, NoAnswer(false)}
              || HoldsAlready(st, Prepared(svc, name, ps).value)
  {
    if Prepared(svc, name, ps).Ok? && svc.listingWorks {
      var req := Prepared(svc, name, ps).value;
      var (t, written) := WriteTemplate(svc, st, req);
      WriteChangesIff(svc, st, req);
      if t.Ok? {
        AppFrame(svc, written, ApplicationName(name), ps.users, t.value);
      }
    }
  }

  /** So a call that fails has changed the templates exactly if it failed after its request was compiled
      and the templates listed, the request differs from what the service held, and the service stored it. */
  lemma FailureChangesTemplatesIff(svc: Service, st: State, name: string, ps: PolicySpec)
    requires Sound(st) && !Setting(svc, st, name, ps).0.Ok?
    ensures Setting(svc, st, name, ps).1.templates != st.templates <==>
              && Prepared(svc, name, ps).Ok? && svc.listingWorks && !HoldsAlready(st, Prepared(svc, name, ps).value)
              && (svc.templateReply == NoAnswer(true)
                  || (svc.templateReply == Accepted
                      && !(TemplateAnswered(svc, st, CitName(name)) && LinkingWorks(svc, st, name, ps.users))))
  {
    TemplatesStayIff(svc, st, name, ps);
    SucceedsIff(svc, st, name, ps);
  }

  /** After the template is written the call succeeds exactly in these cases: the application exists,
      its alias works and no users are given; or it exists with an alias list, users are resolved if
      given, and the write is answered; or its lookup fails with 404 although it can be created, with
      owners resolved and the write accepted. */
  predicate LinkingWorks(svc: Service, st: State, name: string, users: seq<string>) {
    && ApplicationName(name) != ""
    && var app, owners := ApplicationName(name), NewOwners(svc, users);
       match LookupError(svc, st, app)
       case None =>
         || (Linked(svc, st, app, CitName(name)) && users == [])
         || (st.apps[app].aliases.Some? && (users == [] || owners.Ok?) && !svc.appReply.NoAnswer?)
       case Some(status) => status == 404 && owners.Ok? && app !in st.apps && svc.appReply == Accepted
  }

  lemma LinkSucceedsIff(svc: Service, st: State, name: string, users: seq<string>, t: StoredTemplate)
    requires ApplicationName(name) != "" && t.request.name == CitName(name)
    ensures LinkApp(svc, st, ApplicationName(name), users, t).0.Ok? <==> LinkingWorks(svc, st, name, users)
  {}

  lemma AppliedSucceedsIff(svc: Service, st: State, name: string, req: CitRequest, users: seq<string>)
    requires Sound(st) && req.name == CitName(name)
    ensures Applied(svc, st, name, req, users).0.Ok? <==>
              svc.listingWorks && TemplateAnswered(svc, st, req.name) && LinkingWorks(svc, st, name, users)
  {
    var app := ApplicationName(name);
    TemplateFrame(svc, st, req);
    LinkedAfterWrite(svc, st, req, app);
    var (t, written) := WriteTemplate(svc, st, req);
    if svc.listingWorks && t.Ok? && app != "" {
      LinkSucceedsIff(svc, written, name, users, t.value);
    }
  }

  /** When a call succeeds, in full. */
  lemma SucceedsIff(svc: Service, st: State, name: string, ps: PolicySpec)
    requires Sound(st)
    ensures Setting(svc, st, name, ps).0.Ok? <==>
              && Prepared(svc, name, ps).Ok? && svc.listingWorks && TemplateAnswered(svc, st, CitName(name))
              && LinkingWorks(svc, st, name, ps.users)
  {
    if Prepared(svc, name, ps).Ok? {
      AppliedSucceedsIff(svc, st, name, Prepared(svc, name, ps).value, ps.users);
    }
  }

  // ---------- the applications afterwards ----------

  /** The application as the call writes it, if it gets that far: a new one, or the one there with its
      alias added, its owners set or both. There is none to write if nothing is to change, the alias
      cannot be added, the owners are not found, or the application cannot be looked up. */
  function AppToWrite(svc: Service, st: State, name: string, users: seq<string>): Option<Application> {
    var app, alias, owners := ApplicationName(name), CitName(name), NewOwners(svc, users);
    var id := IdFor(st, alias);
    match LookupError(svc, st, app)
    case Some(status) =>
      if status == 404 && app !in st.apps && owners.Ok?
      then Some(Application(owners.value, "", [], Some(map[alias := id]), false))
      else None
    case None =>
      var was, linked := st.apps[app], Linked(svc, st, app, alias);
      if (linked && users == []) || (!linked && was.aliases == None) || (users != [] && !owners.Ok?) then None
      else Some(was.(owners := if users == [] then was.owners else owners.value,
                     aliases := if linked then was.aliases else Some(was.aliases.value[alias := id]),
                     startTargetedDiscovery := false))
  }

  /** A call with a compiled request gets as far as linking the template to the application. */
  predicate AppIsReached(svc: Service, st: State, name: string) {
    svc.listingWorks && TemplateAnswered(svc, st, CitName(name)) && ApplicationName(name) != ""
  }

  function AppsWith(svc: Service, st: State, app: string, written: Option<Application>): map<string, Application> {
    if written.Some? && svc.appReply in {Accepted, NoAnswer(true)} then st.apps[app := written.value] else st.apps
  }

  lemma LinkedAppIs(svc: Service, st: State, written: State, name: string, users: seq<string>, t: StoredTemplate)
    requires written.apps == st.apps && t.request.name == CitName(name) && t.id == IdFor(st, CitName(name))
    requires Linked(svc, written, ApplicationName(name), CitName(name))
        <==> Linked(svc, st, ApplicationName(name), CitName(name))
    ensures LinkApp(svc, written, ApplicationName(name), users, t).1.apps ==
              AppsWith(svc, st, ApplicationName(name), AppToWrite(svc, st, name, users))
  {}

  lemma AppliedApps(svc: Service, st: State, name: string, req: CitRequest, users: seq<string>)
    requires Sound(st) && req.name == CitName(name)
    ensures Applied(svc, st, name, req, users).1.apps ==
              if AppIsReached(svc, st, name)
              then AppsWith(svc, st, ApplicationName(name), AppToWrite(svc, st, name, users))
              else st.apps
  {
    TemplateFrame(svc, st, req);
    LinkedAfterWrite(svc, st, req, ApplicationName(name));
    var (t, written) := WriteTemplate(svc, st, req);
    if AppIsReached(svc, st, name) {
      LinkedAppIs(svc, st, written, name, users, t.value);
    }
  }

  /** There is an application to be written, and it is not the one already there. */
  predicate Differs(st: State, app: string, written: Option<Application>) {
    written.Some? && (app in st.apps ==> st.apps[app] != written.value)
  }

  lemma DiffersIff(svc: Service, st: State, app: string, written: Option<Application>)
    ensures AppsWith(svc, st, app, written) != st.apps <==>
              Differs(st, app, written) && svc.appReply in {Accepted, NoAnswer(true)}
  {
    if written.Some? {
      assert st.apps[app := written.value][app] == written.value;
    }
  }

  lemma AppliedAppsStayIff(svc: Service, st: State, name: string, req: CitRequest, users: seq<string>)
    requires Sound(st) && req.name == CitName(name)
    ensures Applied(svc, st, name, req, users).1.apps == st.apps <==>
              || !AppIsReached(svc, st, name)
              || svc.appReply in {Refused, NoAnswer(false)}
              || !Differs(st, ApplicationName(name), AppToWrite(svc, st, name, users))
  {
    AppliedApps(svc, st, name, req, users);
    DiffersIff(svc, st, ApplicationName(name), AppToWrite(svc, st, name, users));
  }

  /** A call leaves all applications as they were exactly if it does not get as far as writing one, the
      write is not done, or the application is like that already. */
  lemma AppsStayIff(svc: Service, st: State, name: string, ps: PolicySpec)
    requires Sound(st)
    ensures Setting(svc, st, name, ps).1.apps == st.apps <==>
              || !Prepared(svc, name, ps).Ok?
              || !AppIsReached(svc, st, name)
              || svc.appReply in {Refused, NoAnswer(false)}
              || !Differs(st, ApplicationName(name), AppToWrite(svc, st, name, ps.users))
  {
    if Prepared(svc, name, ps).Ok? {
      AppliedAppsStayIff(svc, st, name, Prepared(svc, name, ps).value, ps.users);
    }
  }

  lemma AcceptedAppSucceeds(svc: Service, st: State, name: string, users: seq<string>)
    requires AppIsReached(svc, st, name) && AppToWrite(svc, st, name, users).Some? && svc.appReply == Accepted
    ensures LinkingWorks(svc, st, name, users)
  {}

  lemma AppliedFailureChangesAppsIff(svc: Service, st: State, name: string, req: CitRequest, users: seq<string>)
    requires Sound(st) && req.name == CitName(name) && !Applied(svc, st, name, req, users).0.Ok?
    ensures Applied(svc, st, name, req, users).1.apps != st.apps <==>
              && AppIsReached(svc, st, name) && svc.appReply == NoAnswer(true)
              && Differs(st, ApplicationName(name), AppToWrite(svc, st, name, users))
  {
    AppliedAppsStayIff(svc, st, name, req, users);
    AppliedSucceedsIff(svc, st, name, req, users);
    if AppIsReached(svc, st, name) && AppToWrite(svc, st, name, users).Some? && svc.appReply == Accepted {
      AcceptedAppSucceeds(svc, st, name, users);
    }
  }

  /** So a call that fails has touched an application exactly if its write, not answered, was done all
      the same and made a difference. */
  lemma FailureChangesAppsIff(svc: Service, st: State, name: string, ps: PolicySpec)
    requires Sound(st) && !Setting(svc, st, name, ps).0.Ok?
    ensures Setting(svc, st, name, ps).1.apps != st.apps <==>
              && Prepared(svc, name, ps).Ok? && AppIsReached(svc, st, name) && svc.appReply == NoAnswer(true)
              && Differs(st, ApplicationName(name), AppToWrite(svc, st, name, ps.users))
  {
    if Prepared(svc, name, ps).Ok? {
      AppliedFailureChangesAppsIff(svc, st, name, Prepared(svc, name, ps).value, ps.users);
    }
  }

  /** In any state, sound or not, a call that fails touches no application, unless its write got no answer. */
  lemma FailureSparesApplications(svc: Service, st: State, name: string, ps: PolicySpec)
    requires !Setting(svc, st, name, ps).0.Ok? && svc.appReply != NoAnswer(true)
    ensures Setting(svc, st, name, ps).1.apps == st.apps
  {
    if Prepared(svc, name, ps).Ok? {
      var (t, written) := WriteTemplate(svc, st, Prepared(svc, name, ps).value);
      assert written.apps == st.apps;
      if t.Ok? {
        FailedLinkSparesApplications(svc, written, ApplicationName(name), ps.users, t.value);
      }
    }
  }

  lemma FailedLinkSparesApplications(svc: Service, st: State, app: string, users: seq<string>, t: StoredTemplate)
    requires svc.appReply != NoAnswer(true)
    ensures LinkApp(svc, st, app, users, t).0.Ok? || LinkApp(svc, st, app, users, t).1.apps == st.apps
  {}

  /** A call with a compiled request moves an alias that is there exactly if it is a call for that alias
      which gets as far as writing the application, the alias could not be looked up, the write was done,
      answered or not, and the alias named another template than the one of that name. */
  predicate MovesAlias(svc: Service, st: State, name: string, users: seq<string>, app: string, alias: string)
    requires HasAlias(st, app, alias)
  {
    && app == ApplicationName(name) != "" && alias == CitName(name)
    && svc.listingWorks && TemplateAnswered(svc, st, alias)
    && svc.lookupFails == None && !svc.aliasLookupWorks
    && (users == [] || OwnersOf(svc, users).Ok?)
    && svc.appReply in {Accepted, NoAnswer(true)}
    && st.apps[app].aliases.value[alias] != IdFor(st, alias)
  }

  lemma AppliedMovesIff(svc: Service, st: State, name: string, req: CitRequest, users: seq<string>, app: string,
                        alias: string)
    requires Sound(st) && HasAlias(st, app, alias) && req.name == CitName(name)
    ensures var after := Applied(svc, st, name, req, users).1;
            && HasAlias(after, app, alias)
            && after.apps[app].aliases.value[alias] ==
                 if MovesAlias(svc, st, name, users, app, alias) then IdFor(st, alias)
                 else st.apps[app].aliases.value[alias]
  {
    AppliedApps(svc, st, name, req, users);
    if app == ApplicationName(name) {
      AliasAsWritten(svc, st, name, users, alias);
    }
  }

  /** When a call moves an alias, in full, and where to; otherwise it keeps it. */
  lemma AliasMovesIff(svc: Service, st: State, name: string, ps: PolicySpec, app: string, alias: string)
    requires Sound(st) && HasAlias(st, app, alias)
    ensures var after := Setting(svc, st, name, ps).1;
            var moves := Prepared(svc, name, ps).Ok? && MovesAlias(svc, st, name, ps.users, app, alias);
            && HasAlias(after, app, alias)
            && (after.apps[app].aliases.value[alias] != st.apps[app].aliases.value[alias] <==> moves)
            && (moves ==> after.apps[app].aliases.value[alias] == IdFor(st, alias))
  {
    if Prepared(svc, name, ps).Ok? {
      AppliedMovesIff(svc, st, name, Prepared(svc, name, ps).value, ps.users, app, alias);
    }
  }

  lemma AliasAsWritten(svc: Service, st: State, name: string, users: seq<string>, alias: string)
    requires AliasWorks(st, ApplicationName(name), alias)
    ensures var written, was := AppToWrite(svc, st, name, users), st.apps[ApplicationName(name)].aliases.value[alias];
            && (written.Some? ==>
                  && written.value.aliases.Some? && alias in written.value.aliases.value
                  && written.value.aliases.value[alias] ==
                       if alias == CitName(name) && !svc.aliasLookupWorks then IdFor(st, alias) else was)
            && (alias == CitName(name) && !svc.aliasLookupWorks ==>
                  (written.Some? <==> svc.lookupFails == None && (users == [] || OwnersOf(svc, users).Ok?)))
  {}

  /** Owners are found all together or not at all, each on its own, although the teams are fetched once. */
  lemma {:induction false} OwnersOfEach(svc: Service, names: seq<string>)
    ensures OwnersOf(svc, names).Ok? <==> forall k | 0 <= k < |names| :: OwnerOf(svc, names[k]).Ok?
    ensures OwnersOf(svc, names).Ok? ==>
              |OwnersOf(svc, names).value| == |names|
              && forall k | 0 <= k < |names| :: OwnerOf(svc, names[k]) == Ok(OwnersOf(svc, names).value[k])
  {
    if names != [] {
      OwnersOfEach(svc, names[1..]);
      assert forall k | 0 < k < |names| :: names[k] == names[1..][k - 1];
      assert forall k | 0 <= k < |names| - 1 :: names[1..][k] == names[k + 1];
    }
  }

  /** A name makes the call panic when the service answers its lookup with an empty list of users. */
  lemma {:induction false} OwnersPanicIff(svc: Service, names: seq<string>)
    ensures OwnersOf(svc, names) == Panic
        <==> exists k | 0 <= k < |names| ::
               svc.users(names[k]) == UsersFound([]) && forall j | 0 <= j < k :: OwnerOf(svc, names[j]).Ok?
  {
    if names != [] {
      var rest := names[1..];
      OwnersPanicIff(svc, rest);
      if OwnerOf(svc, names[0]).Ok? {
        if OwnersOf(svc, rest) == Panic {
          var k :| 0 <= k < |rest| && svc.users(rest[k]) == UsersFound([])
                   && forall j | 0 <= j < k :: OwnerOf(svc, rest[j]).Ok?;
          assert svc.users(names[k + 1]) == UsersFound([]);
          assert forall j | 0 < j < k + 1 :: names[j] == rest[j - 1];
        }
        if k :| 0 <= k < |names| && svc.users(names[k]) == UsersFound([])
                && forall j | 0 <= j < k :: OwnerOf(svc, names[j]).Ok? {
          assert rest[k - 1] == names[k];
          assert forall j | 0 <= j < k - 1 :: rest[j] == names[j + 1];
        }
      } else {
        assert OwnerOf(svc, names[0]) == Panic <==> svc.users(names[0]) == UsersFound([]);
      }
    }
  }

  /** When a specification compiles: its authority has three segments, and its default units are not an
      empty list, on which the compiler panics. */
  lemma CompilesIff(ps: PolicySpec, ca: CADetails)
    ensures Compile(ps, ca) == Panic <==>
              CertAuthorityInfo(CertificateAuthorityOf(ps)).Ok? && DefaultSubjectOf(ps).orgUnits == Some([])
    ensures Compile(ps, ca).Ok? <==>
              CertAuthorityInfo(CertificateAuthorityOf(ps)).Ok? && DefaultSubjectOf(ps).orgUnits != Some([])
  {}

  /** Validation panics when all checks before that of the units pass, the default units are not allowed,
      and there is no default organization to name in the message. */
  lemma ValidationPanicsIff(ps: PolicySpec)
    ensures Validate(ps) == Panic <==>
              && CheckRsaKeySizes(KeyPairOf(ps).rsaKeySizes).Ok? && CheckAltNames(SanOf(ps)).Ok?
              && DefaultSubjectOf(ps).org == None && UnitsRefused(ps)
  {}

  predicate UnitsRefused(ps: PolicySpec) {
    var units, allowed := DefaultSubjectOf(ps).orgUnits.GetOr([]), SubjectOf(ps).orgUnits;
    units != [] && allowed != [] && allowed != [ALLOW_ALL] && exists v | v in units :: v !in allowed
  }

  /** Before the service is changed the call panics in validation, or in compiling what validation
      accepted. */
  predicate PanicsBefore(svc: Service, name: string, ps: PolicySpec) {
    && svc.authenticated
    && (Validate(ps) == Panic
        || (Validate(ps).Ok? && CitName(name) != "" && svc.authority(CertificateAuthorityOf(ps)).Some?
            && CertAuthorityInfo(CertificateAuthorityOf(ps)).Ok? && DefaultSubjectOf(ps).orgUnits == Some([])))
  }

  /** Afterwards it panics when the answer to a new template lists none, when the application's lookup
      fails with another status than 404, when an application without any alias list lacks the alias, when
      an owner's lookup panics, or when nobody is named as the owner of a new application and the details
      of who is calling name no user. */
  predicate PanicsAfter(svc: Service, st: State, name: string, users: seq<string>) {
    && svc.listingWorks && svc.templateReply == Accepted
    && (TemplateAnswered(svc, st, CitName(name)) ==>
          ApplicationName(name) != "" && LinkingPanics(svc, st, ApplicationName(name), users))
  }

  predicate LinkingPanics(svc: Service, st: State, app: string, users: seq<string>) {
    var failed := LookupError(svc, st, app);
    || (failed.Some? && failed.value != 404)
    || (failed == None && st.apps[app].aliases == None)
    || (users != [] && OwnersOf(svc, users) == Panic)
    || (failed == Some(404) && users == [] && svc.userDetails == DetailsWithoutUser)
  }

  lemma PreparedPanicsIff(svc: Service, name: string, ps: PolicySpec)
    ensures Prepared(svc, name, ps) == Panic <==> PanicsBefore(svc, name, ps)
  {
    if svc.authority(CertificateAuthorityOf(ps)).Some? {
      CompilesIff(ps, svc.authority(CertificateAuthorityOf(ps)).value);
    }
  }

  /** When a call panics, in full. */
  lemma PanicsIff(svc: Service, st: State, name: string, ps: PolicySpec)
    requires Sound(st)
    ensures Setting(svc, st, name, ps).0 == Panic <==>
              PanicsBefore(svc, name, ps) || (Prepared(svc, name, ps).Ok? && PanicsAfter(svc, st, name, ps.users))
  {
    PreparedPanicsIff(svc, name, ps);
    if Prepared(svc, name, ps).Ok? {
      AppliedPanicsIff(svc, st, name, Prepared(svc, name, ps).value, ps.users);
    }
  }

  lemma AppliedPanicsIff(svc: Service, st: State, name: string, req: CitRequest, users: seq<string>)
    requires Sound(st) && req.name == CitName(name)
    ensures Applied(svc, st, name, req, users).0 == Panic <==> PanicsAfter(svc, st, name, users)
  {
    var app := ApplicationName(name);
    TemplateFrame(svc, st, req);
    LinkedAfterWrite(svc, st, req, app);
    var (t, written) := WriteTemplate(svc, st, req);
    if svc.listingWorks && t.Ok? && app != "" {
      LinkPanicsIff(svc, written, app, users, t.value);
    }
  }

  lemma LinkPanicsIff(svc: Service, st: State, app: string, users: seq<string>, t: StoredTemplate)
    ensures LinkApp(svc, st, app, users, t).0 == Panic <==> LinkingPanics(svc, st, app, users)
  {}

  // ---------- runs ----------

  datatype Call = Call(svc: Service, name: string, ps: PolicySpec)

  function Run(st: State, calls: seq<Call>): State
    decreases |calls|
  {
    if calls == [] then st else Run(Setting(calls[0].svc, st, calls[0].name, calls[0].ps).1, calls[1..])
  }

  lemma CallKeepsSound(svc: Service, st: State, name: string, ps: PolicySpec)
    requires Sound(st)
    ensures Sound(Setting(svc, st, name, ps).1)
  {
    if Prepared(svc, name, ps).Ok? {
      var req, app := Prepared(svc, name, ps).value, ApplicationName(name);
      TemplateFrame(svc, st, req);
      var (t, written) := WriteTemplate(svc, st, req);
      AliasesPointAfter(st, written, req.name);
      if t.Ok? {
        TemplateIsThere(svc, st, req);
        assert t.value in written.templates;
        LinkKeepsAliases(svc, written, app, ps.users, t.value);
        AppFrame(svc, written, app, ps.users, t.value);
      }
    }
  }

  lemma AliasesPointAfter(before: State, after: State, name: string)
    requires AliasesPoint(before) && after.apps == before.apps
    requires OnlyNamedChanged(before.templates, after.templates, name)
    ensures AliasesPoint(after)
  {
    forall a, alias | a in after.apps && after.apps[a].aliases.Some? && alias in after.apps[a].aliases.value
      ensures TemplateExists(after, after.apps[a].aliases.value[alias])
    {
      StillExists(before, after, name, before.apps[a].aliases.value[alias]);
    }
  }

  lemma LinkKeepsAliases(svc: Service, st: State, app: string, users: seq<string>, t: StoredTemplate)
    requires AliasesPoint(st) && t in st.templates
    ensures AliasesPoint(LinkApp(svc, st, app, users, t).1)
  {
    assert TemplateExists(st, t.id);
  }

  /** Over every run of calls, however each is answered, ids stay unique and no alias ever dangles. */
  lemma {:induction false} RunKeepsSound(st: State, calls: seq<Call>)
    requires Sound(st)
    ensures Sound(Run(st, calls))
    decreases |calls|
  {
    if calls != [] {
      CallKeepsSound(calls[0].svc, st, calls[0].name, calls[0].ps);
      RunKeepsSound(Setting(calls[0].svc, st, calls[0].name, calls[0].ps).1, calls[1..]);
    }
  }

  lemma OtherTemplateStays(before: seq<StoredTemplate>, after: seq<StoredTemplate>, changed: string, name: string)
    requires OnlyNamedChanged(before, after, changed) && changed != name && FirstNamed(before, name).Some?
    ensures FirstNamed(after, name) == FirstNamed(before, name)
  {
    var k := FirstNamedAt(before, name);
    FirstNamedIs(after, name, k);
  }

  /** A policy stands until a call for its own template name: no run of other calls changes it. */
  lemma {:induction false} PolicyStands(st: State, calls: seq<Call>, citName: string)
    requires Sound(st) && FirstNamed(st.templates, citName).Some?
    requires forall k | 0 <= k < |calls| :: CitName(calls[k].name) != citName
    ensures FirstNamed(Run(st, calls).templates, citName) == FirstNamed(st.templates, citName)
    decreases |calls|
  {
    if calls != [] {
      var c := calls[0];
      var after := Setting(c.svc, st, c.name, c.ps).1;
      EverythingElseStays(c.svc, st, c.name, c.ps);
      CallKeepsSound(c.svc, st, c.name, c.ps);
      OtherTemplateStays(st.templates, after.templates, CitName(c.name), citName);
      PolicyStands(after, calls[1..], citName);
    }
  }

  /** An alias never moves while alias lookups work: over every run it names the template it named. */
  lemma {:induction false} AliasNeverMoves(st: State, calls: seq<Call>, app: string, alias: string)
    requires Sound(st) && HasAlias(st, app, alias)
    requires forall k | 0 <= k < |calls| :: calls[k].svc.aliasLookupWorks
    ensures HasAlias(Run(st, calls), app, alias)
    ensures Run(st, calls).apps[app].aliases.value[alias] == st.apps[app].aliases.value[alias]
    decreases |calls|
  {
    if calls != [] {
      var c := calls[0];
      AliasMovesIff(c.svc, st, c.name, c.ps, app, alias);
      CallKeepsSound(c.svc, st, c.name, c.ps);
      AliasNeverMoves(Setting(c.svc, st, c.name, c.ps).1, calls[1..], app, alias);
    }
  }

  /** A failed alias lookup counts as no alias: the call then moves the alias to the template of that
      name, so it changes exactly if it named another one. */
  lemma FailedLookupMovesAlias(svc: Service, st: State, name: string, ps: PolicySpec)
    requires Sound(st) && HasAlias(st, ApplicationName(name), CitName(name))
    ensures var after, app, alias := Setting(svc, st, name, ps).1, ApplicationName(name), CitName(name);
            var stored := FirstNamed(after.templates, alias);
            Setting(svc, st, name, ps).0.Ok? && svc.appReply == Accepted && !svc.aliasLookupWorks ==>
            && HasAlias(after, app, alias) && stored.Some?
            && (after.apps[app].aliases.value[alias] == st.apps[app].aliases.value[alias]
                <==> st.apps[app].aliases.value[alias] == stored.value.id)
  {
    if Setting(svc, st, name, ps).0.Ok? {
      SuccessMeans(svc, st, name, ps);
      AliasMovesIff(svc, st, name, ps, ApplicationName(name), CitName(name));
    }
  }
}
