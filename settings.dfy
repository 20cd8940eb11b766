/**
 * Site-wide settings (settings.go): the settings file, the global Settings
 * value loaded from it, the first-run initialisation, Save and the
 * installation-wizard route UpdateSettings.
 */
module Settings {
  import opened Wrappers
  import opened Web
  import RootMisc

  datatype Mailgun = Mailgun(domain: string, privateKey: string, publicKey: string)

  /** The settings structure, as stored in settings.json. */
  datatype Vertigo = Vertigo(
    name: string,
    hostname: string,
    firstrun: bool,
    cookieHash: string,
    description: string,
    mailer: Mailgun)

  /** Go's zero value of the structure. */
  const Zero: Vertigo := Vertigo("", "", false, "", "", Mailgun("", "", ""))

  /** What the first load writes to an empty file: zero fields, a fresh cookie hash, Firstrun set. */
  function FirstRun(uuid: string): (v: Vertigo)
    ensures v.firstrun && v.cookieHash == uuid
    ensures v.(firstrun := false, cookieHash := "") == Zero
  {
    Zero.(cookieHash := uuid, firstrun := true)
  }

  /** What Save keeps: the caller's fields, but the cookie hash of the stored settings. */
  function Saved(stored: Vertigo, v: Vertigo): (r: Vertigo)
    ensures r.cookieHash == stored.cookieHash
    ensures r.(cookieHash := v.cookieHash) == v
  {
    v.(cookieHash := stored.cookieHash)
  }

  /** Saving twice against the same stored settings is the same as saving once. */
  lemma SavedIdempotent(stored: Vertigo, v: Vertigo)
    ensures Saved(stored, Saved(stored, v)) == Saved(stored, v)
    ensures Saved(Saved(stored, v), v) == Saved(stored, v)
  {
  }

  /**
   * How the file system behaves on a call: a failing read, a write that
   * fails before the file is opened (it is left as it was), a write that
   * fails after the file was opened and truncated (it is left empty), or
   * neither.
   */
  datatype Fault = NoFault | ReadFault | WriteFault | TruncatedWrite

  /**
   * The settings file (None while it is empty) and the global Settings. The
   * JSON encoding is not modelled: the file holds the structure itself.
   */
  class Site {
    var file: Option<Vertigo>
    var settings: Vertigo

    /** Program start-up: Settings = VertigoSettings(). */
    constructor (initial: Option<Vertigo>, uuid: string)
      ensures file == Some(settings)
      ensures initial.Some? ==> settings == initial.value
      ensures initial.None? ==> settings == FirstRun(uuid)
    {
      file := initial;
      settings := Zero;
      new;
      settings := Load(uuid);
    }

    /**
     * VertigoSettings: an empty file is first filled with FirstRun(uuid) and
     * then read again; a non-empty file is returned as stored.
     */
    method Load(uuid: string) returns (loaded: Vertigo)
      modifies this`file
      ensures old(file).Some? ==> file == old(file) && loaded == old(file).value
      ensures old(file).None? ==> file == Some(FirstRun(uuid)) && loaded == FirstRun(uuid)
      decreases if file.None? then 1 else 0
    {
      if file.None? {
        file := Some(FirstRun(uuid));
        loaded := Load(uuid);
        return;
      }
      loaded := file.value;
    }

    /**
     * Save: read the stored settings (an empty file cannot be decoded and
     * panics, hence the requirement), make v the global Settings with the
     * stored cookie hash, then write it out.
     */
    method Save(v: Vertigo, fault: Fault) returns (result: Outcome<string>)
      requires file.Some?
      modifies this
      ensures fault == ReadFault ==> result.Fail? && file == old(file) && settings == old(settings)
      ensures fault != ReadFault ==> settings == Saved(old(file).value, v)
      ensures fault == WriteFault ==> result.Fail? && file == old(file)
      ensures fault == TruncatedWrite ==> result.Fail? && file.None?
      ensures fault == NoFault ==> result == Pass && file == Some(settings)
      ensures settings == old(settings) || settings.cookieHash == old(file).value.cookieHash
      ensures fault != TruncatedWrite ==> file.Some?
      ensures file.Some? ==> file.value.cookieHash == old(file).value.cookieHash
    {
      if fault == ReadFault {
        return Fail("read settings.json");
      }
      var stored := file.value;
      settings := Saved(stored, v);
      if fault == WriteFault {
        return Fail("write settings.json");
      }
      if fault == TruncatedWrite {
        file := None;
        return Fail("write settings.json");
      }
      file := Some(settings);
      result := Pass;
    }

    /**
     * UpdateSettings: refused with 406 once Firstrun is off; otherwise the
     * submitted settings are saved with Firstrun off, and the answer depends
     * on the request root.
     */
    method UpdateSettings(form: Vertigo, url: string, fault: Fault) returns (response: Response)
      requires settings.firstrun ==> file.Some?
      modifies this
      ensures !old(settings.firstrun) ==> response == Json(406) && file == old(file) && settings == old(settings)
      ensures old(settings.firstrun) && fault == ReadFault ==> response == Json(500) && file == old(file) && settings == old(settings)
      ensures old(settings.firstrun) && fault != ReadFault ==>
        settings == Saved(old(file).value, form.(firstrun := false)) && !settings.firstrun
      ensures old(settings.firstrun) && fault == WriteFault ==> response == Json(500) && file == old(file)
      ensures old(settings.firstrun) && fault == TruncatedWrite ==> response == Json(500) && file.None?
      ensures old(settings.firstrun) && fault == NoFault ==> (
        file == Some(settings) &&
        response == match RootMisc.Root(url)
                    case "api" => Json(200)
                    case "user" => Redirect("/user/register", 302)
                    case _ => Json(500))
      ensures old(file).Some? && fault != TruncatedWrite ==> file.Some?
    {
      if !settings.firstrun {
        return Json(406);
      }
      var submitted := form.(firstrun := false);
      var result := Save(submitted, fault);
      if result.Fail? {
        return Json(500);
      }
      var root := RootMisc.Root(url);
      if root == "api" {
        response := Json(200);
      } else if root == "user" {
        response := Redirect("/user/register", 302);
      } else {
        response := Json(500);
      }
    }
  }

  /** After a successful Save, the next load of the file returns the settings just saved. */
  method SaveThenLoad(site: Site, v: Vertigo, uuid: string) returns (loaded: Vertigo)
    requires site.file.Some?
    modifies site
    ensures loaded == site.settings && loaded == Saved(old(site.file).value, v)
    ensures site.file == Some(loaded)
  {
    var _ := site.Save(v, NoFault);
    loaded := site.Load(uuid);
  }

  /**
   * A write that fails after truncating the file leaves it empty, so the next
   * start-up takes it for a first run: the wizard opens again and the cookie
   * hash is replaced by a fresh one.
   */
  method RestartAfterTruncatedSave(site: Site, v: Vertigo, uuid: string) returns (restarted: Site)
    requires site.file.Some?
    modifies site
    ensures restarted.settings == FirstRun(uuid)
    ensures restarted.settings.firstrun && restarted.settings.cookieHash == uuid
  {
    var _ := site.Save(v, TruncatedWrite);
    restarted := new Site(site.file, uuid);
  }

  /** Once the wizard has been accepted, a second submission is refused and changes nothing. */
  method SecondUpdateRefused(site: Site, first: Vertigo, second: Vertigo, url: string, fault: Fault)
    returns (response: Response)
    requires site.file.Some? && site.settings.firstrun
    modifies site
    ensures fault != ReadFault ==> response == Json(406)
  {
    var _ := site.UpdateSettings(first, url, fault);
    ghost var between := site.settings;
    response := site.UpdateSettings(second, url, NoFault);
    assert fault != ReadFault ==> !between.firstrun;
  }
}
