/**
 * The TLS decision the REST server process makes on start-up: resolve the
 * certificate and key paths (possibly inside a resource package), check that
 * both files exist and that a protocol version is set, and enable TLS only if
 * all three checks pass. File existence and package-resource lookup are
 * oracles passed in by the caller; the lookup may raise.
 */
module TlsBootstrap {
  import opened Wrappers
  import opened PosixPath

  /** `ssl.PROTOCOL_TLSv1_2`, the default protocol version of the server process. */
  const PROTOCOL_TLSv1_2: int := 5

  /**
   * The `ssl_options` value: Python `None`, or a dictionary whose values are
   * `None` or strings (a key missing from `entries` is a key missing from the dictionary).
   */
  datatype SslOptionsValue = NoOptions | Options(entries: map<string, Option<string>>)

  /** `if self.ssl_options:` — `None` and the empty dictionary are false. */
  predicate OptionsTruthy(o: SslOptionsValue) {
    o.Options? && |o.entries| > 0
  }

  /** Truth of a dictionary value: `None` and the empty string are false. */
  predicate Truthy(v: Option<string>) {
    v.Some? && v.value != ""
  }

  /**
   * `pkg_resources.resource_filename(package, name)`: the file name of the
   * resource, or `None` when the call raises (the package cannot be imported,
   * or its loader cannot hand out the resource).
   */
  type ResourceLookup = (string, string) -> Option<string>

  /** Truth of the protocol version: `None` and the protocol numbered 0 are false. */
  predicate VersionTruthy(v: Option<int>) {
    v.Some? && v.value != 0
  }

  /** Options ready for the HTTP listener. */
  datatype TlsSettings = TlsSettings(sslVersion: int, certfile: string, keyfile: string)

  /**
   * The exceptions the block can raise: a missing dictionary key, a local
   * variable read before assignment, or the failed resource lookup of the
   * `certfile` or `keyfile` entry.
   */
  datatype SslError = KeyError(key: string) | UnboundLocalError(name: string) | ResourceLookupFailed(entry: string)

  /** What the block logs. */
  datatype SslEvent =
    | CertificateNotFound(path: string)
    | KeyNotFound(path: string)
    | VersionNotSpecified
    | SslEnabled(settings: TlsSettings)
    | SslDisabled

  /** The outcome of the block: the listener's options (`None`: plain HTTP) or the exception, and the log. */
  datatype SslResolution = SslResolution(outcome: Result<Option<TlsSettings>, SslError>, log: seq<SslEvent>)

  /**
   * The resolution rule: a bare file name with a package is looked up in the
   * package under `directory + file`; `None` when that lookup raises.
   */
  function ResolvePath(file: string, package: Option<string>, directory: string,
                       resource: ResourceLookup): Option<string>
  {
    if Dirname(file) == "" && package.Some? then resource(package.value, directory + file) else Some(file)
  }

  /**
   * A path holding no separator is bare; a bare name with a package resolves
   * into the package, and only that lookup can fail; anything else is kept.
   */
  lemma ResolvePathRule(file: string, package: Option<string>, directory: string, resource: ResourceLookup)
    ensures ResolvePath(file, package, directory, resource)
         == if Sep !in file && package.Some? then resource(package.value, directory + file) else Some(file)
  {
    DirnameEmptyIff(file);
  }

  /** The local `package`: bound only when the dictionary's value is true. */
  function PackageOf(m: map<string, Option<string>>): Option<string>
    requires "package" in m
  {
    if Truthy(m["package"]) then m["package"] else None
  }

  /** The local `directory`: the dictionary's value when true, `""` otherwise. */
  function DirectoryOf(m: map<string, Option<string>>): string
    requires "directory" in m
  {
    if Truthy(m["directory"]) then m["directory"].value else ""
  }

  /** A file entry whose resolution reads `package` although `package` was never bound. */
  predicate NeedsUnboundPackage(m: map<string, Option<string>>, key: string)
    requires "package" in m && key in m
  {
    Truthy(m[key]) && Dirname(m[key].value) == "" && PackageOf(m).None?
  }

  /** A true file entry whose resolution calls `resource_filename`, and the call raises. */
  predicate LookupFails(m: map<string, Option<string>>, key: string, resource: ResourceLookup)
    requires "package" in m && "directory" in m && key in m
  {
    Truthy(m[key]) && ResolvePath(m[key].value, PackageOf(m), DirectoryOf(m), resource).None?
  }

  /** The exception the block raises on a nonempty dictionary, in the order the statements run; `None` when it raises none. */
  function SslFailure(m: map<string, Option<string>>, resource: ResourceLookup): Option<SslError> {
    if "package" !in m then Some(KeyError("package"))
    else if "directory" !in m then Some(KeyError("directory"))
    else if "certfile" !in m then Some(KeyError("certfile"))
    else if NeedsUnboundPackage(m, "certfile") then Some(UnboundLocalError("package"))
    else if LookupFails(m, "certfile", resource) then Some(ResourceLookupFailed("certfile"))
    else if "keyfile" !in m then Some(KeyError("keyfile"))
    else if NeedsUnboundPackage(m, "keyfile") then Some(UnboundLocalError("package"))
    else if LookupFails(m, "keyfile", resource) then Some(ResourceLookupFailed("keyfile"))
    else if !Truthy(m["certfile"]) then Some(UnboundLocalError("ssl_certificate_file"))
    else if !Truthy(m["keyfile"]) then Some(UnboundLocalError("ssl_key_file"))
    else None
  }

  /**
   * The block raises on a nonempty dictionary exactly when a key is missing,
   * an empty `certfile` or `keyfile` leaves its path unbound, a bare file
   * name (one without a separator) meets a false `package`, or the package
   * lookup of a bare name raises.
   */
  lemma SslFailureIff(m: map<string, Option<string>>, resource: ResourceLookup)
    ensures SslFailure(m, resource).Some?
        <==> || !("package" in m && "directory" in m && "certfile" in m && "keyfile" in m)
             || !Truthy(m["certfile"]) || !Truthy(m["keyfile"])
             || (!Truthy(m["package"]) && (Sep !in m["certfile"].value || Sep !in m["keyfile"].value))
             || (Sep !in m["certfile"].value
                 && resource(m["package"].value, DirectoryOf(m) + m["certfile"].value).None?)
             || (Sep !in m["keyfile"].value
                 && resource(m["package"].value, DirectoryOf(m) + m["keyfile"].value).None?)
  {
    if "certfile" in m && Truthy(m["certfile"]) {
      DirnameEmptyIff(m["certfile"].value);
    }
    if "keyfile" in m && Truthy(m["keyfile"]) {
      DirnameEmptyIff(m["keyfile"].value);
    }
  }

  /** All four keys are present and the certificate path got bound. */
  predicate CertificateBound(m: map<string, Option<string>>, resource: ResourceLookup) {
    && "package" in m && "directory" in m && "certfile" in m && "keyfile" in m && Truthy(m["certfile"])
    && ResolvePath(m["certfile"].value, PackageOf(m), DirectoryOf(m), resource).Some?
  }

  function CertificatePath(m: map<string, Option<string>>, resource: ResourceLookup): string
    requires CertificateBound(m, resource)
  {
    ResolvePath(m["certfile"].value, PackageOf(m), DirectoryOf(m), resource).value
  }

  /** Both paths are bound. */
  predicate PathsBound(m: map<string, Option<string>>, resource: ResourceLookup) {
    && CertificateBound(m, resource) && Truthy(m["keyfile"])
    && ResolvePath(m["keyfile"].value, PackageOf(m), DirectoryOf(m), resource).Some?
  }

  function KeyPath(m: map<string, Option<string>>, resource: ResourceLookup): string
    requires PathsBound(m, resource)
  {
    ResolvePath(m["keyfile"].value, PackageOf(m), DirectoryOf(m), resource).value
  }

  /** The three checks, each logged when it fails, all of them run. */
  function FailedChecks(cert: string, key: string, version: Option<int>, fileExists: string -> bool): seq<SslEvent> {
    (if fileExists(cert) then [] else [CertificateNotFound(cert)])
    + (if fileExists(key) then [] else [KeyNotFound(key)])
    + (if VersionTruthy(version) then [] else [VersionNotSpecified])
  }

  /**
   * The specification of the block. Without options nothing is attempted;
   * an exception ends the block (the certificate check has already run when
   * the key path turns out unbound); otherwise TLS is enabled exactly when
   * both files exist and the version is set.
   */
  function SslDecision(options: SslOptionsValue, version: Option<int>,
                       fileExists: string -> bool, resource: ResourceLookup): SslResolution
  {
    if !OptionsTruthy(options) then SslResolution(Ok(None), [])
    else
      var m := options.entries;
      match SslFailure(m, resource)
      case Some(e) =>
        var log := if e == UnboundLocalError("ssl_key_file") && !fileExists(CertificatePath(m, resource))
                   then [CertificateNotFound(CertificatePath(m, resource))] else [];
        SslResolution(Err(e), log)
      case None =>
        var cert, key := CertificatePath(m, resource), KeyPath(m, resource);
        var checks := FailedChecks(cert, key, version, fileExists);
        if fileExists(cert) && fileExists(key) && VersionTruthy(version) then
          var settings := TlsSettings(version.value, cert, key);
          SslResolution(Ok(Some(settings)), checks + [SslEnabled(settings)])
        else
          SslResolution(Ok(None), checks + [SslDisabled])
  }

  /**
   * What the decision promises: no options, no TLS and no log; an exception
   * exactly when the statements raise one; otherwise TLS enabled exactly when
   * both files exist and the version is set, with exactly that version and
   * those resolved paths, and every failed check logged.
   */
  lemma SslDecisionProperties(options: SslOptionsValue, version: Option<int>,
                              fileExists: string -> bool, resource: ResourceLookup)
    ensures var r := SslDecision(options, version, fileExists, resource);
            && (!OptionsTruthy(options) ==> r == SslResolution(Ok(None), []))
            && (r.outcome.Err? <==> OptionsTruthy(options) && SslFailure(options.entries, resource).Some?)
            && (r.outcome.Err? ==> r.outcome.error == SslFailure(options.entries, resource).value)
    ensures var r := SslDecision(options, version, fileExists, resource);
            OptionsTruthy(options) && SslFailure(options.entries, resource).None? ==>
              var m := options.entries;
              var cert, key := CertificatePath(m, resource), KeyPath(m, resource);
              && r.outcome.Ok?
              && (r.outcome.value.Some? <==> fileExists(cert) && fileExists(key) && VersionTruthy(version))
              && (r.outcome.value.Some? ==> r.outcome.value.value == TlsSettings(version.value, cert, key))
              && (CertificateNotFound(cert) in r.log <==> !fileExists(cert))
              && (KeyNotFound(key) in r.log <==> !fileExists(key))
              && (VersionNotSpecified in r.log <==> !VersionTruthy(version))
              && (SslDisabled in r.log <==> r.outcome.value.None?)
  {
  }

  lemma SslDecisionRaises(options: SslOptionsValue, version: Option<int>,
                          fileExists: string -> bool, resource: ResourceLookup, e: SslError)
    requires OptionsTruthy(options) && SslFailure(options.entries, resource) == Some(e)
    requires e != UnboundLocalError("ssl_key_file")
    ensures SslDecision(options, version, fileExists, resource) == SslResolution(Err(e), [])
  {
  }

  lemma SslDecisionKeyUnbound(options: SslOptionsValue, version: Option<int>,
                              fileExists: string -> bool, resource: ResourceLookup)
    requires OptionsTruthy(options) && SslFailure(options.entries, resource) == Some(UnboundLocalError("ssl_key_file"))
    ensures CertificateBound(options.entries, resource)
    ensures var cert := CertificatePath(options.entries, resource);
            SslDecision(options, version, fileExists, resource)
            == SslResolution(Err(UnboundLocalError("ssl_key_file")),
                             if fileExists(cert) then [] else [CertificateNotFound(cert)])
  {
  }

  lemma SslDecisionChecks(options: SslOptionsValue, version: Option<int>,
                          fileExists: string -> bool, resource: ResourceLookup)
    requires OptionsTruthy(options) && SslFailure(options.entries, resource).None?
    ensures var m := options.entries;
            var cert, key := CertificatePath(m, resource), KeyPath(m, resource);
            var checks := FailedChecks(cert, key, version, fileExists);
            SslDecision(options, version, fileExists, resource)
            == if fileExists(cert) && fileExists(key) && VersionTruthy(version)
               then SslResolution(Ok(Some(TlsSettings(version.value, cert, key))),
                                  checks + [SslEnabled(TlsSettings(version.value, cert, key))])
               else SslResolution(Ok(None), checks + [SslDisabled])
  {
  }

  /**
   * The statements that bind one file entry (`certfile` or `keyfile`): the
   * entry's value when it is true, looked up in the package when the name is
   * bare; reading the unbound `package` raises.
   */
  method ResolveEntry(m: map<string, Option<string>>, key: string, package: Option<string>, directory: string,
                      resource: ResourceLookup)
    returns (file: Option<string>, error: Option<SslError>)
    requires "package" in m && "directory" in m && key in m
    requires package == PackageOf(m) && directory == DirectoryOf(m)
    ensures error.Some? <==> NeedsUnboundPackage(m, key) || LookupFails(m, key, resource)
    ensures error.Some? ==> error == if NeedsUnboundPackage(m, key) then Some(UnboundLocalError("package"))
                                     else Some(ResourceLookupFailed(key))
    ensures error.None? ==> file == if Truthy(m[key]) then ResolvePath(m[key].value, package, directory, resource) else None
  {
    file, error := None, None;
    if Truthy(m[key]) {
      file := m[key];
      if Dirname(file.value) == "" {
        if package.None? {
          return None, Some(UnboundLocalError("package"));
        }
        file := resource(package.value, directory + file.value);
        if file.None? {
          return None, Some(ResourceLookupFailed(key));
        }
      }
    }
  }

  /**
   * The block of `RestServerProcess.run` that turns `ssl_options` into the
   * listener's options, statement by statement.
   */
  method ResolveSslOptions(options: SslOptionsValue, version: Option<int>,
                           fileExists: string -> bool, resource: ResourceLookup)
    returns (outcome: Result<Option<TlsSettings>, SslError>, log: seq<SslEvent>)
    ensures SslResolution(outcome, log) == SslDecision(options, version, fileExists, resource)
  {
    log := [];
    if !OptionsTruthy(options) {
      return Ok(None), log;
    }
    var m := options.entries;
    var sslEnabled := true;
    var package: Option<string> := None;
    if "package" !in m {
      SslDecisionRaises(options, version, fileExists, resource, KeyError("package"));
      return Err(KeyError("package")), log;
    }
    if Truthy(m["package"]) {
      package := m["package"];
    }
    var directory := "";
    if "directory" !in m {
      SslDecisionRaises(options, version, fileExists, resource, KeyError("directory"));
      return Err(KeyError("directory")), log;
    }
    if Truthy(m["directory"]) {
      directory := m["directory"].value;
    }
    if "certfile" !in m {
      SslDecisionRaises(options, version, fileExists, resource, KeyError("certfile"));
      return Err(KeyError("certfile")), log;
    }
    var certificateFile, certificateError := ResolveEntry(m, "certfile", package, directory, resource);
    if certificateError.Some? {
      SslDecisionRaises(options, version, fileExists, resource, certificateError.value);
      return Err(certificateError.value), log;
    }
    if "keyfile" !in m {
      SslDecisionRaises(options, version, fileExists, resource, KeyError("keyfile"));
      return Err(KeyError("keyfile")), log;
    }
    var keyFile, keyError := ResolveEntry(m, "keyfile", package, directory, resource);
    if keyError.Some? {
      SslDecisionRaises(options, version, fileExists, resource, keyError.value);
      return Err(keyError.value), log;
    }
    if certificateFile.None? {
      SslDecisionRaises(options, version, fileExists, resource, UnboundLocalError("ssl_certificate_file"));
      return Err(UnboundLocalError("ssl_certificate_file")), log;
    }
    var certificate := certificateFile.value;
    if !fileExists(certificate) {
      log := log + [CertificateNotFound(certificate)];
      sslEnabled := false;
    }
    assert sslEnabled == fileExists(certificate);
    assert log == if fileExists(certificate) then [] else [CertificateNotFound(certificate)];
    if keyFile.None? {
      SslDecisionKeyUnbound(options, version, fileExists, resource);
      return Err(UnboundLocalError("ssl_key_file")), log;
    }
    var key := keyFile.value;
    if !fileExists(key) {
      log := log + [KeyNotFound(key)];
      sslEnabled := false;
    }
    assert sslEnabled == (fileExists(certificate) && fileExists(key));
    if !VersionTruthy(version) {
      log := log + [VersionNotSpecified];
      sslEnabled := false;
    }
    assert sslEnabled == (fileExists(certificate) && fileExists(key) && VersionTruthy(version));
    assert log == FailedChecks(certificate, key, version, fileExists);
    SslDecisionChecks(options, version, fileExists, resource);
    if sslEnabled {
      var settings := TlsSettings(version.value, certificate, key);
      outcome := Ok(Some(settings));
      log := log + [SslEnabled(settings)];
    } else {
      outcome := Ok(None);
      log := log + [SslDisabled];
    }
  }
}
