/** Deriving the evidence that a connection is permanently inactive, and what its canonical text records. */
module RetirementEvidence {
  import opened Wrappers
  import opened CanonicalJson
  import opened CanonicalEvidence

  datatype Snapshot = Snapshot(
    tenantId: Text, tenantStatus: Text, connectionId: Text, connectorKey: Text, connectionStatus: Text,
    authHealth: Text, connectionGeneration: Text, disconnectedAt: Option<Text>, deletionRequestId: Text,
    deletionScope: Text, deletionConnectionId: Option<Text>, deletionStatus: Text, deletionRequestedAt: Text,
    deletionApprovedAt: Option<Text>,
    auditTenantId: Text, auditId: Text, auditAction: Text, auditResourceType: Text, auditResourceId: Option<Text>,
    auditMetadata: Json, auditOccurredAt: Text)

  datatype Expected = Expected(tenantId: Text, connectionId: Text, connectorId: Text)

  datatype Reason = TenantDeleting | Disconnected

  datatype Derived = Derived(reason: Reason, auditId: Text, evidence: Text)

  datatype Refusal =
    | WrongIdentity | NotActive | WrongAudit | WrongRequest | NoMetadata | NotFenced | NotProved | Unprintable

  /** A digit or a capital letter other than I, L, O and U. */
  predicate IsUlidUnit(u: Unit) {
    48 <= u <= 57 || (65 <= u <= 90 && u != 73 && u != 76 && u != 79 && u != 85)
  }

  predicate IsUlid(text: Text) {
    |text| == 26 && forall i | 0 <= i < 26 :: IsUlidUnit(text[i])
  }

  predicate ActiveStatus(status: Text) {
    status in {Units("queued"), Units("running"), Units("retry_wait"), Units("verifying"), Units("failed"),
               Units("completed")}
  }

  function Lookup(fields: Fields, key: Text): Option<Json> {
    match fields
    case NoField => None
    case Field(k, v, rest) => if k == key then Some(v) else Lookup(rest, key)
  }

  /** An object, or a date, which is one without such properties. */
  predicate IsMetadata(v: Json) {
    v.Obj? || v.Date?
  }

  function Property(v: Json, name: Text): Option<Json> {
    if v.Obj? then Lookup(v.fields, name) else None
  }

  predicate Deleting(s: Snapshot) {
    s.tenantStatus == Units("deleting")
  }

  predicate TenantProof(s: Snapshot) {
    && s.authHealth == Units("revoked") && s.deletionScope == Units("tenant")
    && s.deletionConnectionId.None? && s.deletionApprovedAt.Some?
    && s.auditAction == Units("tenant.deletion_requested")
    && s.auditResourceType == Units("deletion_request")
    && s.auditResourceId == Some(s.deletionRequestId)
  }

  /** `asString` is the host's String(). */
  predicate DisconnectProof(s: Snapshot, asString: Option<Json> -> Text) {
    && s.connectionStatus == Units("disconnected") && s.authHealth == Units("revoked")
    && s.disconnectedAt.Some? && s.deletionScope == Units("connection")
    && s.deletionConnectionId == Some(s.connectionId)
    && Some(s.deletionRequestedAt) == s.disconnectedAt
    && s.auditAction == Units("connection.disconnect_requested")
    && s.auditResourceType == Units("connection")
    && s.auditResourceId == Some(s.connectionId)
    && Property(s.auditMetadata, Units("deletion_request_id")) == Some(Str(s.deletionRequestId))
    && asString(Property(s.auditMetadata, Units("connection_generation"))) == s.connectionGeneration
  }

  function Refused(s: Snapshot, expected: Expected, asString: Option<Json> -> Text): Option<Refusal> {
    if !IsUlid(s.tenantId) || s.tenantId != expected.tenantId || !IsUlid(s.connectionId) ||
       s.connectionId != expected.connectionId || s.connectorKey != expected.connectorId then Some(WrongIdentity)
    else if !ActiveStatus(s.deletionStatus) then Some(NotActive)
    else if s.auditTenantId != s.tenantId || !IsUlid(s.auditId) then Some(WrongAudit)
    else if !IsUlid(s.deletionRequestId) then Some(WrongRequest)
    else if !IsMetadata(s.auditMetadata) then Some(NoMetadata)
    else if Deleting(s) then
      if s.connectionStatus != Units("blocked") && s.connectionStatus != Units("disconnected") then Some(NotFenced)
      else if !TenantProof(s) then Some(NotProved)
      else None
    else if !DisconnectProof(s, asString) then Some(NotProved)
    else None
  }

  // ---------------------------------------------------------------- the evidence

  function OrNull(text: Option<Text>): Json {
    if text.None? then Null else Str(text.value)
  }

  function TenantPart(s: Snapshot): Fields {
    Field(Units("tenantId"), Str(s.tenantId), Field(Units("deletionInProgress"), Bool(Deleting(s)), NoField))
  }

  function ConnectionPart(s: Snapshot): Fields {
    Field(Units("connectionId"), Str(s.connectionId), Field(Units("connectorKey"), Str(s.connectorKey),
    Field(Units("connectionStatus"), Str(s.connectionStatus), Field(Units("authHealth"), Str(s.authHealth),
    Field(Units("connectionGeneration"), Str(s.connectionGeneration),
    Field(Units("disconnectedAt"), OrNull(s.disconnectedAt), NoField))))))
  }

  function IntentPart(s: Snapshot): Fields {
    Field(Units("deletionRequestId"), Str(s.deletionRequestId), Field(Units("scope"), Str(s.deletionScope),
    Field(Units("connectionId"), OrNull(s.deletionConnectionId), Field(Units("requestedAt"), Str(s.deletionRequestedAt),
    Field(Units("approvedAt"), OrNull(s.deletionApprovedAt), NoField)))))
  }

  function AuditPart(s: Snapshot): Fields {
    Field(Units("tenantId"), Str(s.auditTenantId), Field(Units("auditId"), Str(s.auditId),
    Field(Units("action"), Str(s.auditAction), Field(Units("resourceType"), Str(s.auditResourceType),
    Field(Units("resourceId"), OrNull(s.auditResourceId), Field(Units("metadata"), s.auditMetadata,
    Field(Units("occurredAt"), Str(s.auditOccurredAt), NoField)))))))
  }

  function ReasonText(s: Snapshot): Text {
    if Deleting(s) then Units("tenant_deleting") else Units("disconnected")
  }

  function Evidence(s: Snapshot): Json {
    Obj(Field(Units("schemaVersion"), Str(Units("connector_pack_connection_retirement_control_evidence_v1")),
    Field(Units("retirementReason"), Str(ReasonText(s)),
    Field(Units("tenant"), Obj(TenantPart(s)), Field(Units("connection"), Obj(ConnectionPart(s)),
    Field(Units("deletionIntent"), Obj(IntentPart(s)), Field(Units("audit"), Obj(AuditPart(s)), NoField)))))))
  }

  function Derive(s: Snapshot, expected: Expected, asString: Option<Json> -> Text): Result<Derived, Refusal> {
    match Refused(s, expected, asString)
    case Some(refusal) => Err(refusal)
    case None =>
      match Canonical(Evidence(s))
      case None => Err(Unprintable)
      case Some(text) => Ok(Derived(if Deleting(s) then TenantDeleting else Disconnected, s.auditId, text))
  }

  // ---------------------------------------------------------------- what the text records

  lemma {:induction false} MeaningHasKeys(fields: Fields)
    ensures FieldsMean(fields).Keys == Keys(fields)
  {
    if fields.Field? {
      MeaningHasKeys(fields.rest);
    }
  }

  /** Records that begin with one name mean the same exactly when its values do and the rests do. */
  lemma Peel(a: Fields, b: Fields)
    requires ProperFields(a) && ProperFields(b) && a.Field? && b.Field? && a.key == b.key
    ensures FieldsMean(a) == FieldsMean(b) <==>
              Means(a.value) == Means(b.value) && FieldsMean(a.rest) == FieldsMean(b.rest)
    ensures ProperFields(a.rest) && ProperFields(b.rest)
  {
    hide Means, Keys;
    MeaningHasKeys(a.rest);
    MeaningHasKeys(b.rest);
    if FieldsMean(a) == FieldsMean(b) {
      assert FieldsMean(a)[a.key] == FieldsMean(b)[a.key];
      assert FieldsMean(a.rest) == FieldsMean(a) - {a.key};
      assert FieldsMean(b.rest) == FieldsMean(b) - {a.key};
    }
  }

  lemma TenantIsProper(s: Snapshot)
    ensures ProperFields(TenantPart(s))
  {
    hide Units, Deleting;
    var p := TenantPart(s);
    var r1 := p.rest;
    assert ProperFields(r1);
  }

  lemma ConnectionIsProper(s: Snapshot)
    ensures ProperFields(ConnectionPart(s))
  {
    hide Units;
    var p := ConnectionPart(s);
    assert Units("connectionId")[7] != Units("connectorKey")[7];
    var r1 := p.rest;
    var r2 := r1.rest;
    var r3 := r2.rest;
    var r4 := r3.rest;
    var r5 := r4.rest;
    assert ProperFields(r5);
    assert ProperFields(r4);
    assert ProperFields(r3);
    assert ProperFields(r2);
    assert ProperFields(r1);
  }

  lemma IntentIsProper(s: Snapshot)
    ensures ProperFields(IntentPart(s))
  {
    hide Units;
    var p := IntentPart(s);
    var r1 := p.rest;
    var r2 := r1.rest;
    var r3 := r2.rest;
    var r4 := r3.rest;
    assert ProperFields(r4);
    assert ProperFields(r3);
    assert ProperFields(r2);
    assert ProperFields(r1);
  }

  lemma AuditIsProper(s: Snapshot)
    requires Proper(s.auditMetadata)
    ensures ProperFields(AuditPart(s))
  {
    hide Units;
    var p := AuditPart(s);
    assert Units("tenantId")[0] != Units("metadata")[0];
    assert Units("resourceId")[0] != Units("occurredAt")[0];
    var r1 := p.rest;
    var r2 := r1.rest;
    var r3 := r2.rest;
    var r4 := r3.rest;
    var r5 := r4.rest;
    var r6 := r5.rest;
    assert ProperFields(r6);
    assert ProperFields(r5);
    assert ProperFields(r4);
    assert ProperFields(r3);
    assert ProperFields(r2);
    assert ProperFields(r1);
  }

  lemma EvidenceIsProper(s: Snapshot)
    requires Proper(s.auditMetadata)
    ensures ProperFields(Evidence(s).fields) && Proper(Evidence(s))
  {
    hide Units, ReasonText, TenantPart, ConnectionPart, IntentPart, AuditPart;
    TenantIsProper(s);
    ConnectionIsProper(s);
    IntentIsProper(s);
    AuditIsProper(s);
    var p := Evidence(s).fields;
    var r1 := p.rest;
    var r2 := r1.rest;
    var r3 := r2.rest;
    var r4 := r3.rest;
    var r5 := r4.rest;
    assert ProperFields(r5);
    assert ProperFields(r4);
    assert ProperFields(r3);
    assert ProperFields(r2);
    assert ProperFields(r1);
  }

  // ---------------------------------------------------------------- part by part

  predicate SameConnection(a: Snapshot, b: Snapshot) {
    && a.connectionId == b.connectionId && a.connectorKey == b.connectorKey && a.connectionStatus == b.connectionStatus
    && a.authHealth == b.authHealth && a.connectionGeneration == b.connectionGeneration
    && a.disconnectedAt == b.disconnectedAt
  }

  predicate SameIntent(a: Snapshot, b: Snapshot) {
    && a.deletionRequestId == b.deletionRequestId && a.deletionScope == b.deletionScope
    && a.deletionConnectionId == b.deletionConnectionId && a.deletionRequestedAt == b.deletionRequestedAt
    && a.deletionApprovedAt == b.deletionApprovedAt
  }

  ghost predicate SameAudit(a: Snapshot, b: Snapshot) {
    && a.auditTenantId == b.auditTenantId && a.auditId == b.auditId && a.auditAction == b.auditAction
    && a.auditResourceType == b.auditResourceType && a.auditResourceId == b.auditResourceId
    && Means(a.auditMetadata) == Means(b.auditMetadata) && a.auditOccurredAt == b.auditOccurredAt
  }

  /** Everything but how far the deletion has got; of the tenant's status only whether it is deleting. */
  ghost predicate SameRecord(a: Snapshot, b: Snapshot) {
    a.tenantId == b.tenantId && Deleting(a) == Deleting(b) && SameConnection(a, b) && SameIntent(a, b) &&
      SameAudit(a, b)
  }

  lemma OrNullMeans(x: Option<Text>, y: Option<Text>)
    ensures Means(OrNull(x)) == Means(OrNull(y)) <==> x == y
  {
  }

  lemma SameConnectionMeaning(a: Snapshot, b: Snapshot)
    ensures FieldsMean(ConnectionPart(a)) == FieldsMean(ConnectionPart(b)) <==> SameConnection(a, b)
  {
    hide Units, OrNull, FieldsMean, ProperFields, Keys;
    ConnectionIsProper(a);
    ConnectionIsProper(b);
    OrNullMeans(a.disconnectedAt, b.disconnectedAt);
    var x1, y1 := ConnectionPart(a), ConnectionPart(b);
    Peel(x1, y1);
    var x2, y2 := x1.rest, y1.rest;
    Peel(x2, y2);
    var x3, y3 := x2.rest, y2.rest;
    Peel(x3, y3);
    var x4, y4 := x3.rest, y3.rest;
    Peel(x4, y4);
    var x5, y5 := x4.rest, y4.rest;
    Peel(x5, y5);
    var x6, y6 := x5.rest, y5.rest;
    Peel(x6, y6);
  }

  lemma SameIntentMeaning(a: Snapshot, b: Snapshot)
    ensures FieldsMean(IntentPart(a)) == FieldsMean(IntentPart(b)) <==> SameIntent(a, b)
  {
    hide Units, OrNull, FieldsMean, ProperFields, Keys;
    IntentIsProper(a);
    IntentIsProper(b);
    OrNullMeans(a.deletionConnectionId, b.deletionConnectionId);
    OrNullMeans(a.deletionApprovedAt, b.deletionApprovedAt);
    var x1, y1 := IntentPart(a), IntentPart(b);
    Peel(x1, y1);
    var x2, y2 := x1.rest, y1.rest;
    Peel(x2, y2);
    var x3, y3 := x2.rest, y2.rest;
    Peel(x3, y3);
    var x4, y4 := x3.rest, y3.rest;
    Peel(x4, y4);
    var x5, y5 := x4.rest, y4.rest;
    Peel(x5, y5);
  }

  lemma SameAuditMeaning(a: Snapshot, b: Snapshot)
    requires Proper(a.auditMetadata) && Proper(b.auditMetadata)
    ensures FieldsMean(AuditPart(a)) == FieldsMean(AuditPart(b)) <==> SameAudit(a, b)
  {
    hide Units, OrNull, FieldsMean, ProperFields, Keys;
    AuditIsProper(a);
    AuditIsProper(b);
    OrNullMeans(a.auditResourceId, b.auditResourceId);
    var x1, y1 := AuditPart(a), AuditPart(b);
    Peel(x1, y1);
    var x2, y2 := x1.rest, y1.rest;
    Peel(x2, y2);
    var x3, y3 := x2.rest, y2.rest;
    Peel(x3, y3);
    var x4, y4 := x3.rest, y3.rest;
    Peel(x4, y4);
    var x5, y5 := x4.rest, y4.rest;
    Peel(x5, y5);
    var x6, y6 := x5.rest, y5.rest;
    Peel(x6, y6);
    var x7, y7 := x6.rest, y6.rest;
    Peel(x7, y7);
  }

  lemma SameTenantMeaning(a: Snapshot, b: Snapshot)
    ensures FieldsMean(TenantPart(a)) == FieldsMean(TenantPart(b)) <==>
              a.tenantId == b.tenantId && Deleting(a) == Deleting(b)
  {
    hide Units, Deleting, FieldsMean, ProperFields, Keys;
    TenantIsProper(a);
    TenantIsProper(b);
    var x1, y1 := TenantPart(a), TenantPart(b);
    Peel(x1, y1);
    var x2, y2 := x1.rest, y1.rest;
    Peel(x2, y2);
  }

  lemma SameEvidenceFields(a: Snapshot, b: Snapshot)
    requires Proper(a.auditMetadata) && Proper(b.auditMetadata)
    ensures FieldsMean(Evidence(a).fields) == FieldsMean(Evidence(b).fields) <==>
              ReasonText(a) == ReasonText(b) && SameRecord(a, b)
  {
    hide Units, Deleting, ReasonText, FieldsMean, ProperFields, Keys, TenantPart, ConnectionPart, IntentPart, AuditPart,
      SameConnection, SameIntent, SameAudit;
    EvidenceIsProper(a);
    EvidenceIsProper(b);
    SameTenantMeaning(a, b);
    SameConnectionMeaning(a, b);
    SameIntentMeaning(a, b);
    SameAuditMeaning(a, b);
    var x1, y1 := Evidence(a).fields, Evidence(b).fields;
    Peel(x1, y1);
    var x2, y2 := x1.rest, y1.rest;
    Peel(x2, y2);
    var x3, y3 := x2.rest, y2.rest;
    Peel(x3, y3);
    var x4, y4 := x3.rest, y3.rest;
    Peel(x4, y4);
    var x5, y5 := x4.rest, y4.rest;
    Peel(x5, y5);
    var x6, y6 := x5.rest, y5.rest;
    Peel(x6, y6);
  }

  lemma SameEvidenceMeaning(a: Snapshot, b: Snapshot)
    requires Proper(a.auditMetadata) && Proper(b.auditMetadata)
    ensures Means(Evidence(a)) == Means(Evidence(b)) <==> SameRecord(a, b)
  {
    hide Units, FieldsMean, SameConnection, SameIntent, SameAudit;
    SameEvidenceFields(a, b);
  }

  /** Two accepted snapshots have the same evidence text exactly when they agree on all that is recorded. */
  lemma EvidenceRecordsExactly(a: Snapshot, b: Snapshot, expected: Expected, asString: Option<Json> -> Text)
    requires Derive(a, expected, asString).Ok? && Derive(b, expected, asString).Ok?
    requires Proper(a.auditMetadata) && Proper(b.auditMetadata)
    ensures Derive(a, expected, asString).value.evidence == Derive(b, expected, asString).value.evidence <==>
              SameRecord(a, b)
  {
    hide Refused, Evidence, Canonical, Means, SameRecord;
    EvidenceIsProper(a);
    EvidenceIsProper(b);
    CanonicalExists(Evidence(a));
    CanonicalExists(Evidence(b));
    SameTextSameMeaning(Evidence(a), Evidence(b));
    SameEvidenceMeaning(a, b);
  }

  /** How far the deletion has got changes neither the verdict nor the text, as long as the intent stays active. */
  lemma ProgressDoesNotShow(s: Snapshot, status: Text, expected: Expected, asString: Option<Json> -> Text)
    requires ActiveStatus(s.deletionStatus) && ActiveStatus(status)
    ensures Derive(s.(deletionStatus := status), expected, asString) == Derive(s, expected, asString)
  {
    hide Canonical, ActiveStatus, IsUlid, TenantProof, DisconnectProof, Evidence;
    var s' := s.(deletionStatus := status);
    SameProofs(s, status, asString);
    assert Refused(s', expected, asString) == Refused(s, expected, asString);
  }

  lemma SameProofs(s: Snapshot, status: Text, asString: Option<Json> -> Text)
    ensures var s' := s.(deletionStatus := status);
            && Evidence(s') == Evidence(s) && TenantProof(s') == TenantProof(s)
            && DisconnectProof(s', asString) == DisconnectProof(s, asString)
  {
    hide Units, Property;
  }

  /** Reformatting the audit metadata, key order included, leaves the digest input alone. */
  lemma MetadataOrderDoesNotShow(s: Snapshot, metadata: Json, expected: Expected, asString: Option<Json> -> Text)
    requires Derive(s, expected, asString).Ok? && Derive(s.(auditMetadata := metadata), expected, asString).Ok?
    requires Proper(s.auditMetadata) && Proper(metadata) && Means(metadata) == Means(s.auditMetadata)
    ensures Derive(s.(auditMetadata := metadata), expected, asString) == Derive(s, expected, asString)
  {
    hide Means, Units, Canonical, Refused;
    EvidenceRecordsExactly(s, s.(auditMetadata := metadata), expected, asString);
  }
}
