/** pkg/venafi/cloud/connectorPolicy.go: setting a policy, that is writing the issuing template and
    linking it to the application. */
module SetPolicy {
  import opened Wrappers
  import opened Text
  import opened PolicyModel
  import opened PolicyCompiler
  import opened CloudService

  datatype SetError =
    | NotAuthenticated
    | InvalidSpecification(error: ValidationError)
    | NoTemplateName
    | UnknownAuthority
    | NotCompiled(compileError: CompileError)
    | ServiceFailed
    | NoApplicationName
    | OwnersNotResolved

  /** GetApplicationName: the text before the first backslash. */
  function ApplicationName(zone: string): string {
    Split(zone, '\\')[0]
  }

  /** GetCitName: the second of exactly two segments. */
  function CitName(zone: string): string {
    var data := Split(zone, '\\');
    if |data| == 2 then data[1] else ""
  }

  // ---------- what the call does, on values ----------

  /** The specification afterwards: a policy without an authority gets the default one. */
  function WithAuthority(ps: PolicySpec): PolicySpec {
    if ps.policy.Some? then
      ps.(policy := Some(ps.policy.value.(certificateAuthority := Some(CertificateAuthorityOf(ps)))))
    else ps
  }

  predicate AuthorityIsFilled(svc: Service, name: string, ps: PolicySpec) {
    svc.authenticated && Validate(ps).Ok? && CitName(name) != ""
  }

  /** What becomes of the specification. */
  function Filled(svc: Service, name: string, ps: PolicySpec): PolicySpec {
    if AuthorityIsFilled(svc, name, ps) then WithAuthority(ps) else ps
  }

  /** Everything before the service is changed: checking and compiling. */
  function Prepared(svc: Service, name: string, ps: PolicySpec): Outcome<CitRequest, SetError> {
    if !svc.authenticated then Err(NotAuthenticated)
    else
      match Validate(ps)
      case Panic => Panic
      case Err(e) => Err(InvalidSpecification(e))
      case Ok(_) =>
        if CitName(name) == "" then Err(NoTemplateName)
        else
          match svc.authority(CertificateAuthorityOf(ps))
          case None => Err(UnknownAuthority)
          case Some(ca) =>
            match Compile(ps, ca)
            case Panic => Panic
            case Err(e) => Err(NotCompiled(e))
            case Ok(req) => Ok(req.(name := CitName(name)))
  }

  /** The id the template of that name has or is about to get. */
  function IdFor(st: State, name: string): nat {
    var found := FirstNamed(st.templates, name);
    if found.Some? then found.value.id else st.nextId
  }

  /** A template of that name is overwritten, else one is created and taken from the list in the answer,
      which panics if the list is empty. */
  function WriteTemplate(svc: Service, st: State, req: CitRequest): (Outcome<StoredTemplate, SetError>, State) {
    var known, t := FirstNamed(st.templates, req.name).Some?, StoredTemplate(IdFor(st, req.name), req);
    var done := if known then PutTemplate(st, t.id, req) else PostTemplate(st, req);
    var answer := if svc.templateReply != Accepted then Err(ServiceFailed)
                  else if known || svc.createAnswerLists then Ok(t)
                  else Panic;
    (answer, Effect(svc.templateReply, done, st))
  }

  function TeamNamed(teams: seq<TeamEntry>, name: string): (r: Option<string>)
    ensures r == None <==> forall t | t in teams :: t.name != name
  {
    if teams == [] then None else if teams[0].name == name then Some(teams[0].id) else TeamNamed(teams[1..], name)
  }

  /** The owner a name stands for: a user, or else a team. */
  function OwnerOf(svc: Service, name: string): Outcome<Owner, SetError> {
    match svc.users(name)
    case UsersFound(ids) => if ids == [] then Panic else Ok(User(ids[0]))
    case UserNotFound =>
      match svc.teams
      case None => Err(OwnersNotResolved)
      case Some(teams) =>
        match TeamNamed(teams, name)
        case None => Err(OwnersNotResolved)
        case Some(id) => Ok(Team(id))
  }

  function Preceded(owners: seq<Owner>, r: Outcome<seq<Owner>, SetError>): Outcome<seq<Owner>, SetError> {
    if r.Ok? then Ok(owners + r.value) else r
  }

  /** The owners of all the names, in order, or the first failure. */
  function OwnersOf(svc: Service, names: seq<string>): Outcome<seq<Owner>, SetError> {
    if names == [] then Ok([])
    else
      match OwnerOf(svc, names[0])
      case Panic => Panic
      case Err(e) => Err(e)
      case Ok(owner) => Preceded([owner], OwnersOf(svc, names[1..]))
  }

  lemma PrecededOneMore(svc: Service, owners: seq<Owner>, names: seq<string>)
    requires names != []
    ensures OwnerOf(svc, names[0]).Ok? ==>
              Preceded(owners, OwnersOf(svc, names))
              == Preceded(owners + [OwnerOf(svc, names[0]).value], OwnersOf(svc, names[1..]))
    ensures !OwnerOf(svc, names[0]).Ok? ==> !OwnersOf(svc, names).Ok?
  {
    if OwnerOf(svc, names[0]).Ok? && OwnersOf(svc, names[1..]).Ok? {
      var owner, rest := OwnerOf(svc, names[0]).value, OwnersOf(svc, names[1..]).value;
      assert owners + ([owner] + rest) == owners + [owner] + rest;
    }
  }

  function NewOwners(svc: Service, users: seq<string>): Outcome<seq<Owner>, SetError> {
    if users != [] then OwnersOf(svc, users)
    else
      match svc.userDetails
      case NoDetails => Err(OwnersNotResolved)
      case DetailsWithoutUser => Panic
      case CurrentUser(id) => Ok([User(id)])
  }

  type Step = (Outcome<string, SetError>, State)

  /** A create must be accepted. */
  function CreateApp(svc: Service, st: State, appName: string, users: seq<string>, t: StoredTemplate): Step {
    match NewOwners(svc, users)
    case Panic => (Panic, st)
    case Err(e) => (Err(e), st)
    case Ok(owners) =>
      var app := Application(owners, "", [], Some(map[t.request.name := t.id]), false);
      var reply := if appName in st.apps then Refused else svc.appReply;
      (if reply == Accepted then Ok("") else Err(ServiceFailed), Effect(reply, StoreApp(st, appName, app), st))
  }

  /** An update need only be answered: its status is not looked at. */
  function PutApp(svc: Service, st: State, appName: string, app: Application): Step {
    (if svc.appReply.NoAnswer? then Err(ServiceFailed) else Ok(""),
     Effect(svc.appReply, StoreApp(st, appName, app.(startTargetedDiscovery := false)), st))
  }

  predicate Linked(svc: Service, st: State, appName: string, alias: string) {
    svc.aliasLookupWorks && AliasWorks(st, appName, alias)
  }

  function UpdateApp(svc: Service, st: State, appName: string, users: seq<string>, t: StoredTemplate): Step
    requires appName in st.apps
  {
    var app, linked := st.apps[appName], Linked(svc, st, appName, t.request.name);
    if !linked && app.aliases == None then (Panic, st)
    else
      var withAlias := if linked then app else app.(aliases := Some(app.aliases.value[t.request.name := t.id]));
      if users == [] then if linked then (Ok(""), st) else PutApp(svc, st, appName, withAlias)
      else
        match OwnersOf(svc, users)
        case Panic => (Panic, st)
        case Err(e) => (Err(e), st)
        case Ok(owners) => PutApp(svc, st, appName, withAlias.(owners := owners))
  }

  /** The details of an application whose lookup failed other than with 404 are used all the same. */
  function LinkApp(svc: Service, st: State, appName: string, users: seq<string>, t: StoredTemplate): Step {
    match LookupError(svc, st, appName)
    case None => UpdateApp(svc, st, appName, users, t)
    case Some(status) => if status == 404 then CreateApp(svc, st, appName, users, t) else (Panic, st)
  }

  function Applied(svc: Service, st: State, name: string, req: CitRequest, users: seq<string>): Step {
    if !svc.listingWorks then (Err(ServiceFailed), st)
    else
      match WriteTemplate(svc, st, req)
      case (Panic, after) => (Panic, after)
      case (Err(e), after) => (Err(e), after)
      case (Ok(t), after) =>
        if ApplicationName(name) == "" then (Err(NoApplicationName), after)
        else LinkApp(svc, after, ApplicationName(name), users, t)
  }

  /** What SetPolicy returns and what it makes of the service. */
  function Setting(svc: Service, st: State, name: string, ps: PolicySpec): Step {
    match Prepared(svc, name, ps)
    case Panic => (Panic, st)
    case Err(e) => (Err(e), st)
    case Ok(req) => Applied(svc, st, name, req, ps.users)
  }

  // ---------- the connector ----------

  datatype Zone = Zone(appName: string, templateAlias: string)

  /** The call gets as far as looking the alias up, which leaves its names in the connector's zone. */
  predicate LooksUpAlias(svc: Service, st: State, name: string, ps: PolicySpec) {
    && Prepared(svc, name, ps).Ok? && svc.listingWorks && ApplicationName(name) != ""
    && var (written, after) := WriteTemplate(svc, st, Prepared(svc, name, ps).value);
       written.Ok? && LookupError(svc, after, ApplicationName(name)) == None
  }

  class Specification {
    var spec: PolicySpec

    constructor (spec: PolicySpec)
      ensures this.spec == spec
    {
      this.spec := spec;
    }
  }

  class Connector {
    const server: Server
    var zone: Zone

    constructor (server: Server)
      ensures this.server == server && zone == Zone("", "")
    {
      this.server := server;
      zone := Zone("", "");
    }

    method GetCit(citName: string) returns (ok: bool, found: Option<StoredTemplate>)
      ensures ok == server.service.listingWorks
      ensures found == if ok then FirstNamed(server.state.templates, citName) else None
    {
      var listed := server.ListTemplates();
      if listed == None {
        return false, None;
      }
      var citArr := listed.value;
      for i := 0 to |citArr|
        invariant FirstNamed(citArr, citName) == FirstNamed(citArr[i..], citName)
      {
        if citName == citArr[i].request.name {
          return true, Some(citArr[i]);
        }
      }
      return true, None;
    }

    method StoreTemplate(req: CitRequest, cit: Option<StoredTemplate>) returns (r: Outcome<StoredTemplate, SetError>)
      requires cit == FirstNamed(server.state.templates, req.name)
      modifies server`state
      ensures (r, server.state) == WriteTemplate(server.service, old(server.state), req)
    {
      if cit.Some? {
        var reply := server.UpdateTemplate(cit.value.id, req);
        return if reply == Accepted then Ok(StoredTemplate(cit.value.id, req)) else Err(ServiceFailed);
      }
      var reply, created := server.CreateTemplate(req);
      if reply != Accepted {
        return Err(ServiceFailed);
      }
      return if |created| == 0 then Panic else Ok(created[0]);
    }

    /** The list of teams is asked for once, when first needed. */
    method ResolveOwners(usersList: seq<string>) returns (r: Outcome<seq<Owner>, SetError>)
      ensures r == OwnersOf(server.service, usersList)
    {
      var svc := server.service;
      var owners: seq<Owner> := [];
      var teams: Option<seq<TeamEntry>> := None;
      assert OwnersOf(svc, usersList).Ok? ==> [] + OwnersOf(svc, usersList).value == OwnersOf(svc, usersList).value;
      for i := 0 to |usersList|
        invariant OwnersOf(svc, usersList) == Preceded(owners, OwnersOf(svc, usersList[i..]))
        invariant teams.Some? ==> teams == svc.teams
      {
        var userName := usersList[i];
        PrecededOneMore(svc, owners, usersList[i..]);
        assert usersList[i..][1..] == usersList[i + 1..];
        match svc.users(userName) {
          case UsersFound(ids) =>
            if |ids| == 0 {
              return Panic;
            }
            owners := owners + [User(ids[0])];
          case UserNotFound =>
            if teams == None {
              teams := svc.teams;
            }
            if teams == None {
              return Err(OwnersNotResolved);
            }
            var found := None;
            for j := 0 to |teams.value|
              invariant found == None && TeamNamed(teams.value, userName) == TeamNamed(teams.value[j..], userName)
            {
              if teams.value[j].name == userName {
                found := Some(teams.value[j].id);
                break;
              }
            }
            if found == None {
              return Err(OwnersNotResolved);
            }
            owners := owners + [Team(found.value)];
        }
      }
      assert owners + [] == owners;
      return Ok(owners);
    }

    method GetOwnerFromUserDetails() returns (owner: Outcome<Owner, SetError>)
      ensures match NewOwners(server.service, [])
              case Ok(owners) => owner.Ok? && owners == [owner.value]
              case Err(e) => owner == Err(e)
              case Panic => owner == Panic
    {
      var userDetails := server.service.userDetails;
      if userDetails.NoDetails? {
        return Err(OwnersNotResolved);
      }
      return if userDetails.CurrentUser? then Ok(User(userDetails.id)) else Panic;
    }

    method CreateApplication(appName: string, users: seq<string>, cit: StoredTemplate)
      returns (r: Outcome<string, SetError>)
      modifies server`state
      ensures (r, server.state) == CreateApp(server.service, old(server.state), appName, users, cit)
    {
      var appIssuingTemplate := map[cit.request.name := cit.id];
      var owners: seq<Owner> := [];
      if |users| > 0 {
        var resolved := ResolveOwners(users);
        if !resolved.Ok? {
          return if resolved.Panic? then Panic else Err(resolved.error);
        }
        owners := resolved.value;
      } else {
        var owner := GetOwnerFromUserDetails();
        if !owner.Ok? {
          return if owner.Panic? then Panic else Err(owner.error);
        }
        owners := [owner.value];
      }
      var reply := server.CreateApplication(appName, Application(owners, "", [], Some(appIssuingTemplate), false));
      return if reply == Accepted then Ok("") else Err(ServiceFailed);
    }

    /** The zone's fields are set to the names looked up. */
    method PolicyExist(policyName: string) returns (exist: bool)
      requires ApplicationName(policyName) != "" && CitName(policyName) != ""
      modifies this`zone
      ensures zone == Zone(ApplicationName(policyName), CitName(policyName))
      ensures exist == Linked(server.service, server.state, zone.appName, zone.templateAlias)
    {
      zone := zone.(appName := ApplicationName(policyName));
      zone := zone.(templateAlias := CitName(policyName));
      exist := server.TemplateByAlias(zone.appName, zone.templateAlias);
    }

    /** `details` is None for a nil pointer. */
    method UpdateApplication(name: string, users: seq<string>, cit: StoredTemplate, details: Option<Application>)
      returns (r: Outcome<string, SetError>)
      requires ApplicationName(name) != "" && CitName(name) == cit.request.name != ""
      requires details.Some? ==>
                 && ApplicationName(name) in server.state.apps
                 && details.value == server.state.apps[ApplicationName(name)]
      modifies this`zone, server`state
      ensures zone == if details == None then old(zone) else Zone(ApplicationName(name), CitName(name))
      ensures (r, server.state) == if details == None then (Panic, old(server.state))
                                   else UpdateApp(server.service, old(server.state), ApplicationName(name), users, cit)
    {
      if details == None {
        return Panic;
      }
      var appReq := details.value.(startTargetedDiscovery := false);
      var citAddedToApp, ownersUpdated := false, false;
      var exist := PolicyExist(name);
      if !exist {
        if appReq.aliases == None {
          return Panic;
        }
        appReq := AddCitToApp(appReq, cit);
        citAddedToApp := true;
      }
      if |users| > 0 {
        var owners := ResolveOwners(users);
        if !owners.Ok? {
          return if owners.Panic? then Panic else Err(owners.error);
        }
        appReq := appReq.(owners := owners.value);
        ownersUpdated := true;
      }
      if citAddedToApp || ownersUpdated {
        var reply := server.UpdateApplication(ApplicationName(name), appReq);
        if reply.NoAnswer? {
          return Err(ServiceFailed);
        }
      }
      return Ok("");
    }

    method AddCitToApp(app: Application, cit: StoredTemplate) returns (r: Application)
      requires app.aliases.Some?
      ensures r == app.(aliases := Some(app.aliases.value[cit.request.name := cit.id]))
    {
      r := app;
      if cit.request.name !in app.aliases.value || app.aliases.value[cit.request.name] != cit.id {
        r := app.(aliases := Some(app.aliases.value[cit.request.name := cit.id]));
      } else {
        assert app.aliases.value[cit.request.name := cit.id] == app.aliases.value;
      }
    }

    method Prepare(name: string, ps: Specification) returns (r: Outcome<CitRequest, SetError>)
      modifies ps
      ensures r == Prepared(server.service, name, old(ps.spec))
      ensures ps.spec == Filled(server.service, name, old(ps.spec))
    {
      if !server.service.authenticated {
        return Err(NotAuthenticated);
      }
      var valid := Validate(ps.spec);
      if !valid.Ok? {
        return if valid.Panic? then Panic else Err(InvalidSpecification(valid.error));
      }
      var citName := CitName(name);
      if citName == "" {
        return Err(NoTemplateName);
      }
      var authority := DEFAULT_CA;
      if ps.spec.policy.Some? {
        var policy := ps.spec.policy.value;
        if policy.certificateAuthority.Some? && policy.certificateAuthority.value != "" {
          authority := policy.certificateAuthority.value;
        } else {
          ps.spec := ps.spec.(policy := Some(policy.(certificateAuthority := Some(DEFAULT_CA))));
        }
      }
      assert authority == CertificateAuthorityOf(old(ps.spec));
      WithAuthorityCompiles(old(ps.spec));
      var caDetails := server.service.authority(authority);
      if caDetails == None {
        return Err(UnknownAuthority);
      }
      var req := BuildCloudCitRequest(ps.spec, caDetails.value);
      if !req.Ok? {
        return if req.Panic? then Panic else Err(NotCompiled(req.error));
      }
      return Ok(req.value.(name := citName));
    }

    method SetPolicy(name: string, ps: Specification) returns (status: Outcome<string, SetError>)
      modifies this`zone, server`state, ps
      ensures (status, server.state) == Setting(server.service, old(server.state), name, old(ps.spec))
      ensures ps.spec == Filled(server.service, name, old(ps.spec))
      ensures zone == if LooksUpAlias(server.service, old(server.state), name, old(ps.spec))
                      then Zone(ApplicationName(name), CitName(name)) else old(zone)
    {
      var req := Prepare(name, ps);
      if !req.Ok? {
        return if req.Panic? then Panic else Err(req.error);
      }
      var listed, cit := GetCit(req.value.name);
      if !listed {
        return Err(ServiceFailed);
      }
      var written := StoreTemplate(req.value, cit);
      if !written.Ok? {
        return if written.Panic? then Panic else Err(written.error);
      }
      var appName := ApplicationName(name);
      if appName == "" {
        return Err(NoApplicationName);
      }
      var appDetails, statusCode := server.ApplicationByName(appName);
      if appDetails == None && statusCode == 404 {
        status := CreateApplication(appName, ps.spec.users, written.value);
      } else {
        status := UpdateApplication(name, ps.spec.users, written.value, appDetails);
      }
    }
  }

  /** Filling in the default authority changes nothing else and compiles to the same request. */
  lemma WithAuthorityCompiles(ps: PolicySpec)
    ensures CertificateAuthorityOf(WithAuthority(ps)) == CertificateAuthorityOf(ps)
    ensures WithAuthority(WithAuthority(ps)) == WithAuthority(ps) && WithAuthority(ps).users == ps.users
    ensures forall ca :: Compile(WithAuthority(ps), ca) == Compile(ps, ca)
  {
    WithAuthorityParts(ps);
  }

  lemma WithAuthorityParts(ps: PolicySpec)
    ensures var filled := WithAuthority(ps);
            && CompiledRules(filled) == CompiledRules(ps) && Recommended(filled) == Recommended(ps)
            && ValidityDays(filled) == ValidityDays(ps)
  {}
}
