/** The outcome sequence of handle_post_system_info (src/main.cpp): the
    credential check, the update of the device record from the request
    body, the save to the registration file and the reload, each of which
    can end the request with its own status code. */
module PostHandler {
  import opened Text
  import opened BasicAuth
  import opened AppConfigLoader
  import opened DeviceRecord
  import opened JsonExtract
  import opened DeviceConfig

  /** What the handler reads from a request: the Authorization header's
      value, empty when the header is missing, and the body. */
  datatype Request = Request(authorization: string, body: string)

  const Ok: int := 200
  const BadRequest: int := 400
  const Unauthorized: int := 401
  const ServerError: int := 500

  /** The store after the request and the status sent back. */
  function Handled(s: Store, auth: AuthConfig, req: Request, h: Host, writable: set<string>, now: int, good: bool): (Store, int) {
    if !Authorized(req.authorization, auth.username, auth.password) then (s, Unauthorized)
    else if req.body == [] then (s, BadRequest)
    else
      var (s1, updated) := Updated(s, h, req.body);
      if !updated then (s1, BadRequest)
      else
        var (s2, saved) := Saved(s1, h, writable, now, good);
        if !saved then (s2, ServerError)
        else (Reloaded(s2, h), Ok)
  }

  method HandlePost(store: DeviceStore, auth: AuthConfig, req: Request, h: Host, writable: set<string>, now: int, good: bool)
      returns (status: int)
    modifies store
    ensures (store.State(), status) == Handled(old(store.State()), auth, req, h, writable, now, good)
  {
    var authorized := CheckBasicAuth(req.authorization, auth.username, auth.password);
    if !authorized {
      return Unauthorized;
    }
    if req.body == [] {
      return BadRequest;
    }
    var updated := store.Update(h, req.body);
    if !updated {
      return BadRequest;
    }
    var saved := store.Save(h, writable, now, good);
    if !saved {
      return ServerError;
    }
    store.Reload(h);
    return Ok;
  }

  // ---------------------------------------------------------------------
  // Properties

  /** A save reports success exactly when a path opens and the stream
      stays good. */
  lemma SavedResult(s: Store, h: Host, writable: set<string>, now: int, good: bool)
    ensures Saved(s, h, writable, now, good).1 <==> SavePath(writable).Some? && good
  {
  }

  /** The four outcomes and what decides each: 401 exactly when the
      credentials are refused, 400 for an empty body or one without a
      "device" object, 500 exactly when no registration path opens or the
      stream goes bad, and 200 otherwise.  A refused request and an empty
      body leave the store as it was. */
  lemma Outcomes(s: Store, auth: AuthConfig, req: Request, h: Host, writable: set<string>, now: int, good: bool)
    ensures var (t, status) := Handled(s, auth, req, h, writable, now, good);
            var authorized := Authorized(req.authorization, auth.username, auth.password);
            && status in {Ok, BadRequest, Unauthorized, ServerError}
            && (status == Unauthorized <==> !authorized)
            && (status == BadRequest <==> authorized && (req.body == [] || DeviceObject(req.body).None?))
            && (status == ServerError <==>
                  authorized && req.body != [] && DeviceObject(req.body).Some? && (SavePath(writable).None? || !good))
            && (!authorized || req.body == [] ==> t == s)
  {
    if Authorized(req.authorization, auth.username, auth.password) && req.body != [] {
      var (s1, updated) := Updated(s, h, req.body);
      UpdatedOk(s, h, req.body);
      SavedResult(s1, h, writable, now, good);
    }
  }

  lemma UpdatedOk(s: Store, h: Host, json: string)
    ensures Updated(s, h, json).1 <==> DeviceObject(json).Some?
  {
  }

  /** Every request leaves a valid store valid, and one that gets past the
      body check leaves it loaded. */
  lemma HandledValid(s: Store, auth: AuthConfig, req: Request, h: Host, writable: set<string>, now: int, good: bool)
    requires Valid(s)
    ensures Valid(Handled(s, auth, req, h, writable, now, good).0)
    ensures Authorized(req.authorization, auth.username, auth.password) && req.body != [] ==>
              Handled(s, auth, req, h, writable, now, good).0.loaded
  {
    if Authorized(req.authorization, auth.username, auth.password) && req.body != [] {
      var s1 := Updated(s, h, req.body).0;
      UpdatedValid(s, h, req.body);
      if Updated(s, h, req.body).1 {
        SavedValid(s1, h, writable, now, good);
        SavedLoaded(s1, h, writable, now, good);
        ReloadedValid(Saved(s1, h, writable, now, good).0, h);
      }
    }
  }

  /** Saving never clears the loaded flag. */
  lemma SavedLoaded(s: Store, h: Host, writable: set<string>, now: int, good: bool)
    requires Valid(s) && s.loaded
    ensures Saved(s, h, writable, now, good).0.loaded
  {
    if SavePath(writable).Some? && s.instances == [] {
      var p := SavePath(writable).value;
      var s1 := s.(files := s.files[p := FileEntry("", now)]);
      InstancesReadLoaded(s1, h);
    }
  }

  lemma InstancesReadLoaded(s: Store, h: Host)
    requires s.loaded
    ensures InstancesRead(s, h).0.loaded
  {
  }

  /** A successful POST is what a later GET sees: when the request lists
      instances, the values can be saved, and the working-directory file
      can be written, the store afterwards holds the requested instances
      and each non-empty saved field that no environment variable
      overrides, as update_device_config_from_json left them. */
  lemma PostThenGet(s: Store, auth: AuthConfig, req: Request, h: Host, writable: set<string>, now: int, f: Field)
    requires Authorized(req.authorization, auth.username, auth.password) && req.body != []
    requires DeviceObject(req.body).Some? && JsonArray(req.body, "instances") != []
    requires LocalPath in writable && Saveable(Updated(s, h, req.body).0)
    requires FileKey(f).Some? && Get(Updated(s, h, req.body).0.info, f) != ""
    requires EnvVar(f).None? || EnvVar(f).value !in h.env
    ensures var (t, status) := Handled(s, auth, req, h, writable, now, true);
            && status == Ok
            && t.instances == JsonArray(req.body, "instances")
            && Get(t.info, f) == Get(Updated(s, h, req.body).0.info, f)
            && t.lastMtime == now
  {
    var u := Updated(s, h, req.body).0;
    UpdatedRecord(s, h, req.body, f);
    SaveCached(u, h, writable, now, true);
    SaveThenReload(u, h, writable, now, f);
  }
}
