/** Time zones as the clock service sees them. The host's zone database is
    injected as a value: the identifiers it knows, each with a fixed offset
    from UTC, and the identifier of the host's own zone. */
module TimeZones {
  import opened Calendar

  /** A zone identifier such as "Europe/Vienna" (the QByteArray of QTimeZone::id). */
  type ZoneId = string

  /** A resolved zone: its identifier and its offset from UTC in seconds. */
  datatype TimeZone = TimeZone(id: ZoneId, offset: int)

  /** The zone database: the known identifiers with their offsets, and the
      identifier of the host's own zone (QTimeZone::systemTimeZoneId). */
  datatype ZoneDatabase = ZoneDatabase(offsets: map<ZoneId, int>, systemId: ZoneId) {
    /** The host's own zone is one the database knows. */
    predicate Valid() {
      systemId in offsets
    }

    /** QTimeZone(id).isValid(). */
    predicate IsValid(id: ZoneId) {
      id in offsets
    }

    /** QTimeZone(id) for a known identifier. */
    function Zone(id: ZoneId): (z: TimeZone)
      requires IsValid(id)
    {
      TimeZone(id, offsets[id])
    }

    /** QTimeZone(QTimeZone::systemTimeZoneId()). */
    function SystemZone(): (z: TimeZone)
      requires Valid()
    {
      Zone(systemId)
    }

    /** The zone setTimeZone stores for an identifier: the named zone when
        the database knows it, the host's own zone otherwise. The result is
        always a known zone, and it carries the requested identifier exactly
        when that identifier is known. */
    function Resolve(id: ZoneId): (z: TimeZone)
      requires Valid()
      ensures IsValid(z.id) && z == Zone(z.id)
      ensures z.id == id <==> IsValid(id)
      ensures !IsValid(id) ==> z == SystemZone()
    {
      if IsValid(id) then Zone(id) else SystemZone()
    }
  }

  /** Resolving the identifier of a resolved zone gives that zone again. */
  lemma ResolveIdempotent(db: ZoneDatabase, id: ZoneId)
    requires db.Valid()
    ensures db.Resolve(db.Resolve(id).id) == db.Resolve(id)
  {
  }

  /** The wall-clock reading of instant x in zone z (QDateTime::toTimeZone):
      the reading whose day and time of day add up to x shifted by the offset. */
  function Project(x: int, z: TimeZone): (r: DateTime)
    ensures r.Valid() && ToSeconds(r) == x + z.offset
  {
    FromSeconds(x + z.offset)
  }
}
