/** When a retirement is accepted, what a changed field does to it, and where the evidence keeps what. */
module RetirementVerdicts {
  import opened Wrappers
  import opened CanonicalJson
  import opened CanonicalEvidence
  import opened RetirementEvidence

  const ALPHABET := "0123456789ABCDEFGHJKMNPQRSTVWXYZ"

  /** An identity is 26 characters of Crockford's base 32. */
  lemma UlidsExactly(text: Text)
    ensures IsUlid(text) <==> |text| == 26 && forall u | u in text :: u in Units(ALPHABET)
  {
    forall u: Unit
      ensures IsUlidUnit(u) <==> u in Units(ALPHABET)
    {
      LettersExactly(u);
    }
    if IsUlid(text) {
      forall u | u in text
        ensures IsUlidUnit(u)
      {
        var i :| 0 <= i < |text| && text[i] == u;
      }
    } else if |text| == 26 {
      var i :| 0 <= i < 26 && !IsUlidUnit(text[i]);
      assert text[i] in text;
    }
  }

  /** Where in the alphabet a unit is looked for. */
  function Place(u: Unit): int {
    if u <= 57 then u - 48
    else if u < 73 then u - 55
    else if u < 76 then u - 56
    else if u < 79 then u - 57
    else if u < 85 then u - 58
    else u - 59
  }

  lemma LettersExactly(u: Unit)
    ensures IsUlidUnit(u) <==> u in Units(ALPHABET)
  {
    var units := Units(ALPHABET);
    assert |units| == 32;
    if IsUlidUnit(u) {
      var i := Place(u);
      LetterAt(i);
      assert units[i] == u;
    }
    forall i | 0 <= i < 32
      ensures IsUlidUnit(units[i])
    {
      LetterAt(i);
    }
  }

  lemma LetterAt(i: int)
    requires 0 <= i < 32
    ensures var u := Units(ALPHABET)[i]; IsUlidUnit(u) && Place(u) == i
  {
    assert ALPHABET[i] as int < 0x1_0000 && ALPHABET[i] as int == Units(ALPHABET)[i];
  }

  // ---------------------------------------------------------------- accepted snapshots

  /** The snapshot is about the connection asked for, its intent is active, and its audit record is its own. */
  predicate Identified(s: Snapshot, expected: Expected) {
    && s.tenantId == expected.tenantId == s.auditTenantId
    && s.connectionId == expected.connectionId && s.connectorKey == expected.connectorId
    && IsUlid(s.tenantId) && IsUlid(s.connectionId) && IsUlid(s.auditId) && IsUlid(s.deletionRequestId)
    && (s.auditMetadata.Obj? || s.auditMetadata.Date?)
    && (s.deletionStatus == Units("queued") || s.deletionStatus == Units("running")
        || s.deletionStatus == Units("retry_wait") || s.deletionStatus == Units("verifying")
        || s.deletionStatus == Units("failed") || s.deletionStatus == Units("completed"))
  }

  /** A connection of a tenant being deleted: fenced, and proved by the approved deletion of the tenant. */
  lemma DeletingAccepted(s: Snapshot, expected: Expected, asString: Option<Json> -> Text)
    requires s.tenantStatus == Units("deleting")
    ensures Refused(s, expected, asString).None? <==>
              && Identified(s, expected) && s.authHealth == Units("revoked")
              && (s.connectionStatus == Units("blocked") || s.connectionStatus == Units("disconnected"))
              && s.deletionScope == Units("tenant") && s.deletionConnectionId.None? && s.deletionApprovedAt.Some?
              && s.auditAction == Units("tenant.deletion_requested")
              && s.auditResourceType == Units("deletion_request") && s.auditResourceId == Some(s.deletionRequestId)
  {
    hide Units, IsUlid;
  }

  /** A disconnected connection: proved by the disconnect request of exactly this generation. */
  lemma DisconnectedAccepted(s: Snapshot, expected: Expected, asString: Option<Json> -> Text)
    requires s.tenantStatus != Units("deleting")
    ensures Refused(s, expected, asString).None? <==>
              && Identified(s, expected) && s.authHealth == Units("revoked")
              && s.connectionStatus == Units("disconnected")
              && s.deletionScope == Units("connection") && s.deletionConnectionId == Some(s.connectionId)
              && s.disconnectedAt == Some(s.deletionRequestedAt)
              && s.auditAction == Units("connection.disconnect_requested")
              && s.auditResourceType == Units("connection") && s.auditResourceId == Some(s.connectionId)
              && s.auditMetadata.Obj?
              && Lookup(s.auditMetadata.fields, Units("deletion_request_id")) == Some(Str(s.deletionRequestId))
              && asString(Lookup(s.auditMetadata.fields, Units("connection_generation"))) == s.connectionGeneration
  {
    hide Units, IsUlid, Lookup;
  }

  /** Every refusal has its reason, tried in this order. */
  lemma RefusalsTell(s: Snapshot, expected: Expected, asString: Option<Json> -> Text)
    ensures var r := Refused(s, expected, asString);
            && (r == Some(WrongIdentity) <==>
                  !(IsUlid(s.tenantId) && IsUlid(s.connectionId)
                    && expected == Expected(s.tenantId, s.connectionId, s.connectorKey)))
            && (r == Some(NotActive) ==> !ActiveStatus(s.deletionStatus))
            && (r == Some(WrongAudit) ==> s.auditTenantId != s.tenantId || !IsUlid(s.auditId))
            && (r == Some(WrongRequest) ==> !IsUlid(s.deletionRequestId))
            && (r == Some(NoMetadata) ==> !s.auditMetadata.Obj? && !s.auditMetadata.Date?)
            && (r == Some(NotFenced) ==> s.tenantStatus == Units("deleting"))
            && (Identified(s, expected) && s.tenantStatus == Units("deleting") ==>
                  (r == Some(NotFenced) <==>
                     s.connectionStatus != Units("blocked") && s.connectionStatus != Units("disconnected")))
            && r != Some(Unprintable)
  {
    hide Units, IsUlid;
  }

  /** What is derived: the reason follows from the tenant alone, and the audit record is named. */
  lemma DerivedExactly(s: Snapshot, expected: Expected, asString: Option<Json> -> Text)
    requires Derive(s, expected, asString).Ok?
    ensures var d := Derive(s, expected, asString).value;
            && d.reason == (if s.tenantStatus == Units("deleting") then TenantDeleting else Disconnected)
            && d.auditId == s.auditId && IsUlid(d.auditId)
            && Canonical(Evidence(s)) == Some(d.evidence)
  {
    hide Units, IsUlid, ActiveStatus, TenantProof, DisconnectProof, Evidence, Canonical;
  }

  /** Of two accepted snapshots for one connection, neither can differ from the other in what proves it inactive. */
  lemma ProofsAreDecisive(a: Snapshot, b: Snapshot, expected: Expected, asString: Option<Json> -> Text)
    requires Refused(a, expected, asString).None? && Refused(b, expected, asString).None?
    requires a.tenantStatus == b.tenantStatus && a.deletionRequestId == b.deletionRequestId
    ensures a.tenantId == b.tenantId == a.auditTenantId == b.auditTenantId
    ensures a.connectionId == b.connectionId && a.connectorKey == b.connectorKey
    ensures a.authHealth == b.authHealth && a.deletionScope == b.deletionScope
    ensures a.deletionConnectionId == b.deletionConnectionId && a.auditAction == b.auditAction
    ensures a.auditResourceType == b.auditResourceType && a.auditResourceId == b.auditResourceId
    ensures a.tenantStatus != Units("deleting") ==>
              a.connectionStatus == b.connectionStatus
              && (a.auditMetadata == b.auditMetadata ==> a.connectionGeneration == b.connectionGeneration)
              && (a.disconnectedAt == b.disconnectedAt <==> a.deletionRequestedAt == b.deletionRequestedAt)
  {
    hide Units, IsUlid, Refused, Lookup;
    if a.tenantStatus == Units("deleting") {
      DeletingAccepted(a, expected, asString);
      DeletingAccepted(b, expected, asString);
    } else {
      DisconnectedAccepted(a, expected, asString);
      DisconnectedAccepted(b, expected, asString);
    }
  }

  // ---------------------------------------------------------------- the names in the evidence

  /** Two fields of other names are passed over. */
  lemma TwoOn(f: Fields, name: Text)
    requires f.Field? && f.rest.Field? && f.key != name && f.rest.key != name
    ensures Lookup(f, name) == Lookup(f.rest.rest, name)
  {
  }

  /** The evidence names its schema, the reason, and four parts. */
  lemma EvidenceNames(s: Snapshot)
    ensures var f := Evidence(s).fields;
            && Lookup(f, Units("schemaVersion")) ==
                 Some(Str(Units("connector_pack_connection_retirement_control_evidence_v1")))
            && Lookup(f, Units("retirementReason")) ==
                 Some(Str(Units(if s.tenantStatus == Units("deleting") then "tenant_deleting" else "disconnected")))
            && Lookup(f, Units("tenant")) == Some(Obj(TenantPart(s)))
            && Lookup(f, Units("connection")) == Some(Obj(ConnectionPart(s)))
            && Lookup(f, Units("deletionIntent")) == Some(Obj(IntentPart(s)))
            && Lookup(f, Units("audit")) == Some(Obj(AuditPart(s)))
  {
    hide Units, TenantPart, ConnectionPart, IntentPart, AuditPart;
    var f := Evidence(s).fields;
    TwoOn(f, Units("tenant"));
    TwoOn(f, Units("connection"));
    TwoOn(f, Units("deletionIntent"));
    TwoOn(f.rest.rest, Units("deletionIntent"));
    TwoOn(f, Units("audit"));
    TwoOn(f.rest.rest, Units("audit"));
  }

  lemma TenantNames(s: Snapshot)
    ensures Lookup(TenantPart(s), Units("tenantId")) == Some(Str(s.tenantId))
    ensures Lookup(TenantPart(s), Units("deletionInProgress")) == Some(Bool(s.tenantStatus == Units("deleting")))
  {
    hide Units;
  }

  lemma ConnectionNames(s: Snapshot)
    ensures var f := ConnectionPart(s);
            && Lookup(f, Units("connectionId")) == Some(Str(s.connectionId))
            && Lookup(f, Units("connectorKey")) == Some(Str(s.connectorKey))
            && Lookup(f, Units("connectionStatus")) == Some(Str(s.connectionStatus))
            && Lookup(f, Units("authHealth")) == Some(Str(s.authHealth))
            && Lookup(f, Units("connectionGeneration")) == Some(Str(s.connectionGeneration))
            && Lookup(f, Units("disconnectedAt")) == Some(OrNull(s.disconnectedAt))
  {
    assert Units("connectionId")[7] != Units("connectorKey")[7];
    hide Units, OrNull;
    var f := ConnectionPart(s);
    TwoOn(f, Units("connectionStatus"));
    TwoOn(f, Units("authHealth"));
    TwoOn(f, Units("connectionGeneration"));
    TwoOn(f.rest.rest, Units("connectionGeneration"));
    TwoOn(f, Units("disconnectedAt"));
    TwoOn(f.rest.rest, Units("disconnectedAt"));
  }

  lemma IntentNames(s: Snapshot)
    ensures var f := IntentPart(s);
            && Lookup(f, Units("deletionRequestId")) == Some(Str(s.deletionRequestId))
            && Lookup(f, Units("scope")) == Some(Str(s.deletionScope))
            && Lookup(f, Units("connectionId")) == Some(OrNull(s.deletionConnectionId))
            && Lookup(f, Units("requestedAt")) == Some(Str(s.deletionRequestedAt))
            && Lookup(f, Units("approvedAt")) == Some(OrNull(s.deletionApprovedAt))
  {
    hide Units, OrNull;
    var f := IntentPart(s);
    TwoOn(f, Units("connectionId"));
    TwoOn(f, Units("requestedAt"));
    TwoOn(f, Units("approvedAt"));
    TwoOn(f.rest.rest, Units("approvedAt"));
  }

  lemma AuditNames(s: Snapshot)
    ensures var f := AuditPart(s);
            && Lookup(f, Units("tenantId")) == Some(Str(s.auditTenantId))
            && Lookup(f, Units("auditId")) == Some(Str(s.auditId))
            && Lookup(f, Units("action")) == Some(Str(s.auditAction))
            && Lookup(f, Units("resourceType")) == Some(Str(s.auditResourceType))
            && Lookup(f, Units("resourceId")) == Some(OrNull(s.auditResourceId))
            && Lookup(f, Units("metadata")) == Some(s.auditMetadata)
            && Lookup(f, Units("occurredAt")) == Some(Str(s.auditOccurredAt))
  {
    assert Units("tenantId")[0] != Units("metadata")[0];
    assert Units("resourceId")[0] != Units("occurredAt")[0];
    hide Units, OrNull;
    var f := AuditPart(s);
    var f2 := f.rest.rest;
    TwoOn(f, Units("action"));
    TwoOn(f, Units("resourceType"));
    TwoOn(f, Units("resourceId"));
    TwoOn(f2, Units("resourceId"));
    TwoOn(f, Units("metadata"));
    TwoOn(f2, Units("metadata"));
    TwoOn(f, Units("occurredAt"));
    TwoOn(f2, Units("occurredAt"));
    TwoOn(f2.rest.rest, Units("occurredAt"));
  }
}
