// Records, attributes and errors common to secrets, keys and certificates.
module Model {
  import opened Wrappers

  const RECOVERY_LEVEL := "Recoverable+Purgeable"
  const RECOVERABLE_DAYS := 90
  const PURGE_DELAY := RECOVERABLE_DAYS * 24 * 60 * 60

  datatype Attributes = Attributes(
    enabled: Option<bool>, notBefore: Option<int>, expires: Option<int>,
    created: int, updated: int, recoveryLevel: string, recoverableDays: int)

  /** A tag map, which may be nil. */
  type Tags = Option<map<string, string>>

  function Patched<T>(current: Option<T>, patch: Option<T>): Option<T> {
    if patch.Some? then patch else current
  }

  function BuildAttributes(input: Option<Attributes>, created: int, updated: int): Attributes {
    match input
    case None => Attributes(None, None, None, created, updated, RECOVERY_LEVEL, RECOVERABLE_DAYS)
    case Some(a) => Attributes(a.enabled, a.notBefore, a.expires, created, updated, RECOVERY_LEVEL, RECOVERABLE_DAYS)
  }

  function MergeAttributes(current: Attributes, patch: Option<Attributes>, now: int): Attributes {
    var merged :=
      match patch
      case None => current
      case Some(p) => current.(enabled := Patched(current.enabled, p.enabled),
                               notBefore := Patched(current.notBefore, p.notBefore),
                               expires := Patched(current.expires, p.expires));
    merged.(updated := now, recoveryLevel := RECOVERY_LEVEL, recoverableDays := RECOVERABLE_DAYS)
  }

  function Recoverable(a: Attributes): Attributes {
    a.(recoveryLevel := RECOVERY_LEVEL, recoverableDays := RECOVERABLE_DAYS)
  }

  datatype Kind = Secrets | Keys | Certificates

  /** Status and code of a store error; the message text is left out. */
  datatype Error = Error(status: int, code: string)

  const BAD_PARAMETER := Error(400, "BadParameter")
  const RESERVED := Error(409, "InvalidOperation")
  const CONFLICT := Error(409, "Conflict")
  const DATABASE_ERROR := Error(500, "InternalServerError")

  function NotFound(kind: Kind): Error {
    match kind
    case Secrets => Error(404, "SecretNotFound")
    case Keys => Error(404, "KeyNotFound")
    case Certificates => Error(404, "CertificateNotFound")
  }

  /**
   * One version of an item. `core` is what no operation changes once the version exists (a secret's
   * value, a key's material and public numbers, a certificate's bytes); `facet` is what updates may
   * replace besides attributes and tags (content type, key operations, policy).
   */
  datatype Record<C, F> = Record(name: string, version: string, core: C, facet: F, attributes: Attributes, tags: Tags)

  type History<C, F> = seq<Record<C, F>>

  datatype Deleted<C, F> = Deleted(versions: History<C, F>, recoveryId: string, deletedDate: int, scheduledPurgeDate: int)

  datatype DeletedRecord<C, F> =
    DeletedRecord(record: Record<C, F>, recoveryId: string, deletedDate: int, scheduledPurgeDate: int)

  datatype Backup<C, F> = Backup(name: string, versions: History<C, F>)
}
