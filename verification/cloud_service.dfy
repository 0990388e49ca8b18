/** The part of the cloud service that setting a policy talks to: its issuing templates and its
    applications, and how it may answer during one call. */
module CloudService {
  import opened Wrappers
  import opened PolicyModel

  datatype Owner = User(id: string) | Team(id: string)

  datatype TeamEntry = TeamEntry(name: string, id: string)

  datatype StoredTemplate = StoredTemplate(id: nat, request: CitRequest)

  /** `networks` stands for the address and port lists, which are only ever copied; a nil alias map is
      None. */
  datatype Application = Application(owners: seq<Owner>, description: string, networks: seq<seq<string>>,
                                     aliases: Option<map<string, nat>>, startTargetedDiscovery: bool)

  datatype State = State(templates: seq<StoredTemplate>, apps: map<string, Application>, nextId: nat)

  /** The answer to a write: done, refused with an unexpected status, or a transport error after which
      the write may or may not have been done. */
  datatype Reply = Accepted | Refused | NoAnswer(done: bool)

  datatype UsersReply = UserNotFound | UsersFound(ids: seq<string>)

  /** The answer to the question who is calling: none, one that names no user, or the user. */
  datatype UserDetails = NoDetails | DetailsWithoutUser | CurrentUser(id: string)

  /** How the service answers during one call. `createAnswerLists` says whether the answer to a template
      it created lists that template, `lookupFails` is the status of a failed application lookup and
      `absentStatus` the status for an application that does not exist. */
  datatype Service = Service(
    authenticated: bool, authority: string -> Option<CADetails>,
    listingWorks: bool, templateReply: Reply, createAnswerLists: bool,
    lookupFails: Option<int>, absentStatus: int, aliasLookupWorks: bool, appReply: Reply,
    users: string -> UsersReply, teams: Option<seq<TeamEntry>>, userDetails: UserDetails)

  function Effect(reply: Reply, done: State, st: State): State {
    if reply == Accepted || reply == NoAnswer(true) then done else st
  }

  function FirstNamed(templates: seq<StoredTemplate>, name: string): (r: Option<StoredTemplate>)
    ensures r.Some? ==> r.value in templates && r.value.request.name == name
    ensures r == None ==> forall t | t in templates :: t.request.name != name
  {
    if templates == [] then None
    else if templates[0].request.name == name then Some(templates[0])
    else FirstNamed(templates[1..], name)
  }

  function Overwritten(templates: seq<StoredTemplate>, id: nat, request: CitRequest): (r: seq<StoredTemplate>)
    ensures |r| == |templates|
    ensures forall k | 0 <= k < |r| ::
              r[k] == if templates[k].id == id then StoredTemplate(id, request) else templates[k]
  {
    seq(|templates|, k requires 0 <= k < |templates| =>
          if templates[k].id == id then StoredTemplate(id, request) else templates[k])
  }

  function PutTemplate(st: State, id: nat, request: CitRequest): State {
    st.(templates := Overwritten(st.templates, id, request))
  }

  function PostTemplate(st: State, request: CitRequest): State {
    st.(templates := st.templates + [StoredTemplate(st.nextId, request)], nextId := st.nextId + 1)
  }

  function StoreApp(st: State, name: string, app: Application): State {
    st.(apps := st.apps[name := app])
  }

  predicate TemplateExists(st: State, id: nat) {
    exists t | t in st.templates :: t.id == id
  }

  /** The application's alias names an existing template. */
  predicate AliasWorks(st: State, appName: string, alias: string) {
    && appName in st.apps && st.apps[appName].aliases.Some? && alias in st.apps[appName].aliases.value
    && TemplateExists(st, st.apps[appName].aliases.value[alias])
  }

  /** The status of an application lookup that fails, or None. */
  function LookupError(svc: Service, st: State, appName: string): Option<int> {
    if svc.lookupFails.Some? then svc.lookupFails
    else if appName in st.apps then None
    else Some(svc.absentStatus)
  }

  class Server {
    var state: State
    const service: Service

    constructor (state: State, service: Service)
      ensures this.state == state && this.service == service
    {
      this.state, this.service := state, service;
    }

    method ListTemplates() returns (r: Option<seq<StoredTemplate>>)
      ensures r == if service.listingWorks then Some(state.templates) else None
    {
      r := if service.listingWorks then Some(state.templates) else None;
    }

    method UpdateTemplate(id: nat, request: CitRequest) returns (reply: Reply)
      modifies this`state
      ensures reply == service.templateReply && state == Effect(reply, PutTemplate(old(state), id, request), old(state))
    {
      reply := service.templateReply;
      state := Effect(reply, PutTemplate(state, id, request), state);
    }

    /** `created` are the templates listed in the answer. */
    method CreateTemplate(request: CitRequest) returns (reply: Reply, created: seq<StoredTemplate>)
      modifies this`state
      ensures reply == service.templateReply
      ensures created == if service.createAnswerLists then [StoredTemplate(old(state).nextId, request)] else []
      ensures state == Effect(reply, PostTemplate(old(state), request), old(state))
    {
      reply, created := service.templateReply, [];
      if service.createAnswerLists {
        created := [StoredTemplate(state.nextId, request)];
      }
      state := Effect(reply, PostTemplate(state, request), state);
    }

    /** The details of an application, or the status of the failed lookup. */
    method ApplicationByName(name: string) returns (details: Option<Application>, status: int)
      ensures match LookupError(service, state, name)
              case None => details == Some(state.apps[name]) && status == 200
              case Some(s) => details == None && status == s
    {
      match LookupError(service, state, name) {
        case None => details, status := Some(state.apps[name]), 200;
        case Some(s) => details, status := None, s;
      }
    }

    method TemplateByAlias(appName: string, alias: string) returns (found: bool)
      ensures found == (service.aliasLookupWorks && AliasWorks(state, appName, alias))
    {
      found := service.aliasLookupWorks && AliasWorks(state, appName, alias);
    }

    /** A second application of the same name is refused. */
    method CreateApplication(name: string, app: Application) returns (reply: Reply)
      modifies this`state
      ensures reply == (if name in old(state).apps then Refused else service.appReply)
      ensures state == Effect(reply, StoreApp(old(state), name, app), old(state))
    {
      reply := if name in state.apps then Refused else service.appReply;
      state := Effect(reply, StoreApp(state, name, app), state);
    }

    method UpdateApplication(name: string, app: Application) returns (reply: Reply)
      modifies this`state
      ensures reply == service.appReply && state == Effect(reply, StoreApp(old(state), name, app), old(state))
    {
      reply := service.appReply;
      state := Effect(reply, StoreApp(state, name, app), state);
    }
  }
}
