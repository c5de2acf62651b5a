/** Secret fields of stored nodes: redacted when read, encrypted or kept when written back. */
module Secrets {
  import opened Wrappers

  const PREFIX := "enc:v1:"
  const MARKER := "\U{2022}\U{2022}\U{2022}\U{2022}\U{2022}\U{2022}\U{2022}\U{2022}"

  /** The fields of a node's data: None is a null, anything else a text. */
  type Data = map<string, Option<string>>

  datatype Doc = Doc(id: string, kind: string, data: Data)

  /** Encryption with a fresh nonce: the result may depend on where the text stands. */
  type Cipher = (nat, string, string) -> string

  function SecretFields(kind: string): seq<string> {
    if kind == "jira" then ["apiToken"]
    else if kind == "vector-db" then ["vectorDbApiKey", "vectorDbEmbeddingApiKey"]
    else if kind == "confluence" then ["apiToken"]
    else []
  }

  /** A field of a node of that kind that nobody may read. */
  predicate IsSecret(kind: string, field: string) {
    || (kind == "jira" && field == "apiToken")
    || (kind == "confluence" && field == "apiToken")
    || (kind == "vector-db" && field == "vectorDbApiKey")
    || (kind == "vector-db" && field == "vectorDbEmbeddingApiKey")
  }

  lemma SecretFieldsAre(kind: string)
    ensures forall f :: f in SecretFields(kind) <==> IsSecret(kind, f)
  {
  }

  function Get(data: Data, field: string): Option<string> {
    if field in data then data[field] else None
  }

  predicate Truthy(v: Option<string>) {
    v.Some? && v.value != ""
  }

  predicate IsEncrypted(s: string) {
    PREFIX <= s
  }

  // Reading

  function Hide(v: Option<string>): Option<string> {
    if Truthy(v) then Some(MARKER) else v
  }

  function RedactData(data: Data, fields: seq<string>): Data {
    map k | k in data :: if k in fields then Hide(data[k]) else data[k]
  }

  function Redacted(d: Doc): Doc {
    d.(data := RedactData(d.data, SecretFields(d.kind)))
  }

  function Redact(docs: seq<Doc>): (r: seq<Doc>)
    ensures |r| == |docs|
  {
    seq(|docs|, i requires 0 <= i < |docs| => Redacted(docs[i]))
  }

  // Writing

  /** The existing document an incoming one is matched with: the last of that id. */
  function Prior(existing: seq<Doc>, id: string): Option<Doc> {
    if existing == [] then None
    else if existing[|existing| - 1].id == id then Some(existing[|existing| - 1])
    else Prior(existing[..|existing| - 1], id)
  }

  function PriorData(existing: seq<Doc>, id: string): Data {
    match Prior(existing, id)
    case None => map[]
    case Some(d) => d.data
  }

  function Seal(v: Option<string>, prior: Option<string>, i: nat, field: string, encrypt: Cipher): Option<string> {
    if !Truthy(v) then v
    else if v.value == MARKER then prior
    else if IsEncrypted(v.value) then v
    else Some(PREFIX + encrypt(i, field, v.value))
  }

  function SealData(data: Data, fields: seq<string>, prior: Data, i: nat, encrypt: Cipher): Data {
    map k | k in data :: if k in fields then Seal(data[k], Get(prior, k), i, k, encrypt) else data[k]
  }

  function Sealed(d: Doc, existing: seq<Doc>, i: nat, encrypt: Cipher): Doc {
    d.(data := SealData(d.data, SecretFields(d.kind), PriorData(existing, d.id), i, encrypt))
  }

  /** What is stored when incoming is written over existing. */
  function Save(incoming: seq<Doc>, existing: seq<Doc>, encrypt: Cipher): (r: seq<Doc>)
    ensures |r| == |incoming|
  {
    seq(|incoming|, i requires 0 <= i < |incoming| => Sealed(incoming[i], existing, i, encrypt))
  }

  // The loops

  /** One of the redacting passes. */
  method RedactKind(docs: seq<Doc>, kind: string) returns (redacted: seq<Doc>)
    ensures |redacted| == |docs|
    ensures forall i :: 0 <= i < |docs| ==> redacted[i] == if docs[i].kind == kind then Redacted(docs[i]) else docs[i]
  {
    redacted := [];
    for i := 0 to |docs|
      invariant |redacted| == i
      invariant forall k :: 0 <= k < i ==> redacted[k] == if docs[k].kind == kind then Redacted(docs[k]) else docs[k]
    {
      var doc := docs[i];
      if doc.kind == kind {
        var data := HideFields(doc.data, SecretFields(kind));
        doc := doc.(data := data);
      }
      redacted := redacted + [doc];
    }
  }

  method HideFields(before: Data, fields: seq<string>) returns (data: Data)
    ensures data == RedactData(before, fields)
  {
    data := before;
    for j := 0 to |fields|
      invariant data == RedactData(before, fields[..j])
    {
      assert fields[..j + 1] == fields[..j] + [fields[j]];
      if Truthy(Get(data, fields[j])) {
        data := data[fields[j] := Some(MARKER)];
      }
    }
    assert fields[..|fields|] == fields;
  }

  lemma OtherKindsHaveNoSecrets(d: Doc)
    requires d.kind != "jira" && d.kind != "vector-db" && d.kind != "confluence"
    ensures Redacted(d) == d
    ensures forall existing, i, encrypt :: Sealed(d, existing, i, encrypt) == d
  {
    assert RedactData(d.data, []) == d.data;
    forall existing, i, encrypt ensures Sealed(d, existing, i, encrypt) == d {
      assert SealData(d.data, [], PriorData(existing, d.id), i, encrypt) == d.data;
    }
  }

  /** The document with the marker in place of every set secret, and nothing else changed. */
  ghost predicate Hidden(stored: Doc, sent: Doc) {
    && sent.id == stored.id && sent.kind == stored.kind && sent.data.Keys == stored.data.Keys
    && forall f :: f in stored.data ==>
        if IsSecret(stored.kind, f) && stored.data[f].Some? && stored.data[f] != Some("") then
          sent.data[f] == Some(MARKER)
        else
          sent.data[f] == stored.data[f]
  }

  lemma RedactedIsHidden(d: Doc)
    ensures Hidden(d, Redacted(d))
  {
    SecretFieldsAre(d.kind);
  }

  /** What a reader is sent. */
  method RedactAll(docs: seq<Doc>) returns (redacted: seq<Doc>)
    ensures redacted == Redact(docs)
    ensures |redacted| == |docs| && forall i :: 0 <= i < |docs| ==> Hidden(docs[i], redacted[i])
  {
    redacted := RedactKind(docs, "jira");
    redacted := RedactKind(redacted, "vector-db");
    redacted := RedactKind(redacted, "confluence");
    forall i | 0 <= i < |docs| ensures redacted[i] == Redacted(docs[i]) {
      if docs[i].kind != "jira" && docs[i].kind != "vector-db" && docs[i].kind != "confluence" {
        OtherKindsHaveNoSecrets(docs[i]);
      }
    }
    forall i | 0 <= i < |docs| ensures Hidden(docs[i], redacted[i]) {
      RedactedIsHidden(docs[i]);
    }
  }

  /** The last document of every id. */
  method ById(existing: seq<Doc>) returns (byId: map<string, Doc>)
    ensures forall id :: (if id in byId then Some(byId[id]) else None) == Prior(existing, id)
  {
    byId := map[];
    for i := 0 to |existing|
      invariant forall id :: (if id in byId then Some(byId[id]) else None) == Prior(existing[..i], id)
    {
      assert existing[..i + 1][..i] == existing[..i];
      byId := byId[existing[i].id := existing[i]];
    }
    assert existing[..|existing|] == existing;
  }

  method SealFields(before: Data, fields: seq<string>, prior: Data, i: nat, encrypt: Cipher) returns (data: Data)
    requires forall j, k :: 0 <= j < k < |fields| ==> fields[j] != fields[k]
    ensures data == SealData(before, fields, prior, i, encrypt)
  {
    data := before;
    for j := 0 to |fields|
      invariant data == SealData(before, fields[..j], prior, i, encrypt)
    {
      assert fields[..j + 1] == fields[..j] + [fields[j]];
      var field, value := fields[j], Get(data, fields[j]);
      assert fields[j] !in fields[..j];
      if Truthy(value) {
        if value.value == MARKER {
          data := data[field := Get(prior, field)];
        } else if !IsEncrypted(value.value) {
          data := data[field := Some(PREFIX + encrypt(i, field, value.value))];
        }
      }
    }
    assert fields[..|fields|] == fields;
  }

  /** One of the encrypting passes, in place. */
  method EncryptKind(docs: array<Doc>, existing: seq<Doc>, kind: string, encrypt: Cipher)
    modifies docs
    ensures forall i :: 0 <= i < docs.Length ==>
              docs[i] == if old(docs[i]).kind == kind then Sealed(old(docs[i]), existing, i, encrypt) else old(docs[i])
  {
    var byId := ById(existing);
    for i := 0 to docs.Length
      invariant forall k :: 0 <= k < i ==>
                  docs[k] ==
                  if old(docs[k]).kind == kind then Sealed(old(docs[k]), existing, k, encrypt) else old(docs[k])
      invariant forall k :: i <= k < docs.Length ==> docs[k] == old(docs[k])
    {
      var doc := docs[i];
      if doc.kind == kind {
        var prior := if doc.id in byId then byId[doc.id].data else map[];
        assert prior == PriorData(existing, doc.id);
        var data := SealFields(doc.data, SecretFields(kind), prior, i, encrypt);
        docs[i] := doc.(data := data);
      }
    }
  }

  /** What becomes of a secret sent for a field: kept if empty or encrypted, fetched for the marker, else encrypted. */
  ghost predicate Kept(sent: Option<string>, stored: Option<string>, prior: Option<string>, cipher: string -> string) {
    match sent
    case None => stored == None
    case Some(text) =>
      if text == "" || "enc:v1:" <= text then stored == sent
      else if text == MARKER then stored == prior
      else stored == Some("enc:v1:" + cipher(text))
  }

  /** The document with its secrets kept, fetched or encrypted, and nothing else changed. */
  ghost predicate Guarded(sent: Doc, stored: Doc, prior: Data, i: nat, encrypt: Cipher) {
    && stored.id == sent.id && stored.kind == sent.kind && stored.data.Keys == sent.data.Keys
    && forall f :: f in sent.data ==>
        if IsSecret(sent.kind, f) then
          Kept(sent.data[f], stored.data[f], Get(prior, f), text => encrypt(i, f, text))
        else
          stored.data[f] == sent.data[f]
  }

  lemma SealKeeps(v: Option<string>, prior: Option<string>, i: nat, f: string, encrypt: Cipher)
    ensures Kept(v, Seal(v, prior, i, f, encrypt), prior, text => encrypt(i, f, text))
  {
    assert PREFIX[0] != MARKER[0];
  }

  lemma SealedIsGuarded(d: Doc, existing: seq<Doc>, i: nat, encrypt: Cipher)
    ensures Guarded(d, Sealed(d, existing, i, encrypt), PriorData(existing, d.id), i, encrypt)
  {
    SecretFieldsAre(d.kind);
    var prior, stored := PriorData(existing, d.id), Sealed(d, existing, i, encrypt);
    forall f | f in d.data && IsSecret(d.kind, f)
      ensures Kept(d.data[f], stored.data[f], Get(prior, f), text => encrypt(i, f, text))
    {
      SealKeeps(d.data[f], Get(prior, f), i, f, encrypt);
    }
  }

  /** What a write does to the incoming documents before they are stored. */
  method EncryptAll(docs: array<Doc>, existing: seq<Doc>, encrypt: Cipher)
    modifies docs
    ensures docs[..] == Save(old(docs[..]), existing, encrypt)
    ensures forall i :: 0 <= i < docs.Length ==>
              Guarded(old(docs[i]), docs[i], PriorData(existing, old(docs[i]).id), i, encrypt)
  {
    ghost var before := docs[..];
    EncryptKind(docs, existing, "jira", encrypt);
    EncryptKind(docs, existing, "vector-db", encrypt);
    EncryptKind(docs, existing, "confluence", encrypt);
    forall i | 0 <= i < |before| ensures docs[i] == Sealed(before[i], existing, i, encrypt) {
      if before[i].kind != "jira" && before[i].kind != "vector-db" && before[i].kind != "confluence" {
        OtherKindsHaveNoSecrets(before[i]);
      }
    }
    forall i | 0 <= i < |before|
      ensures Guarded(before[i], docs[i], PriorData(existing, before[i].id), i, encrypt)
    {
      SealedIsGuarded(before[i], existing, i, encrypt);
    }
  }

  // Reading and writing back

  ghost predicate DistinctDocs(docs: seq<Doc>) {
    forall i, j :: 0 <= i < j < |docs| ==> docs[i].id != docs[j].id
  }

  lemma {:induction false} PriorIsLast(docs: seq<Doc>, i: nat)
    requires i < |docs| && forall j :: i < j < |docs| ==> docs[j].id != docs[i].id
    ensures Prior(docs, docs[i].id) == Some(docs[i])
  {
    if i < |docs| - 1 {
      PriorIsLast(docs[..|docs| - 1], i);
    }
  }

  /** Every set secret of d equals that of the document its id leads to. */
  ghost predicate KeepsSecrets(d: Doc, existing: seq<Doc>) {
    forall f :: IsSecret(d.kind, f) && Truthy(Get(d.data, f)) ==>
        Get(PriorData(existing, d.id), f) == Get(d.data, f)
  }

  lemma RoundTripDoc(d: Doc, existing: seq<Doc>, i: nat, encrypt: Cipher)
    ensures Sealed(Redacted(d), existing, i, encrypt) == d <==> KeepsSecrets(d, existing)
  {
    SecretFieldsAre(d.kind);
    var back := Sealed(Redacted(d), existing, i, encrypt);
    assert back.data.Keys == d.data.Keys;
    forall k | k in d.data
      ensures back.data[k] ==
              if IsSecret(d.kind, k) && Truthy(d.data[k]) then Get(PriorData(existing, d.id), k) else d.data[k]
    {
    }
    if back == d {
      forall f | IsSecret(d.kind, f) && Truthy(Get(d.data, f))
        ensures Get(PriorData(existing, d.id), f) == Get(d.data, f)
      {
        assert back.data[f] == d.data[f];
      }
    }
    if KeepsSecrets(d, existing) {
      assert back.data == d.data;
    }
  }

  /** Writing back the redacted view restores the stored documents exactly when every secret is found under its id. */
  lemma WriteBackIff(stored: seq<Doc>, encrypt: Cipher)
    ensures Save(Redact(stored), stored, encrypt) == stored <==>
              forall i :: 0 <= i < |stored| ==> KeepsSecrets(stored[i], stored)
  {
    var back := Save(Redact(stored), stored, encrypt);
    forall i | 0 <= i < |stored| ensures back[i] == stored[i] <==> KeepsSecrets(stored[i], stored) {
      RoundTripDoc(stored[i], stored, i, encrypt);
    }
  }

  /** With unique ids it always is. */
  lemma WriteBackRestores(stored: seq<Doc>, encrypt: Cipher)
    requires DistinctDocs(stored)
    ensures Save(Redact(stored), stored, encrypt) == stored
  {
    forall i | 0 <= i < |stored| ensures KeepsSecrets(stored[i], stored) {
      PriorIsLast(stored, i);
    }
    WriteBackIff(stored, encrypt);
  }

  // Runs of writes

  predicate Clean(v: Option<string>) {
    v.None? || v.value == "" || "enc:v1:" <= v.value
  }

  /** Every secret field is empty or encrypted. */
  ghost predicate Secure(docs: seq<Doc>) {
    forall i, f :: 0 <= i < |docs| && IsSecret(docs[i].kind, f) ==> Clean(Get(docs[i].data, f))
  }

  lemma EncryptedIsNotMarker(s: string)
    requires IsEncrypted(s)
    ensures s != MARKER
  {
    assert s[0] == PREFIX[0];
  }

  /** A marker stands for a stored value that is empty or encrypted. */
  ghost predicate MarkersMeanClean(incoming: seq<Doc>, existing: seq<Doc>) {
    forall i, f ::
        0 <= i < |incoming| && IsSecret(incoming[i].kind, f) && Get(incoming[i].data, f) == Some(MARKER) ==>
      Clean(Get(PriorData(existing, incoming[i].id), f))
  }

  lemma SavedField(incoming: seq<Doc>, existing: seq<Doc>, encrypt: Cipher, i: nat, f: string)
    requires i < |incoming| && IsSecret(incoming[i].kind, f)
    ensures Get(Save(incoming, existing, encrypt)[i].data, f) ==
            Seal(Get(incoming[i].data, f), Get(PriorData(existing, incoming[i].id), f), i, f, encrypt)
  {
    SecretFieldsAre(incoming[i].kind);
  }

  lemma SealClean(v: Option<string>, prior: Option<string>, i: nat, f: string, encrypt: Cipher)
    ensures Clean(Seal(v, prior, i, f, encrypt)) <==> (v == Some(MARKER) ==> Clean(prior))
  {
  }

  /** One write stores only empty or encrypted secrets exactly when its markers stand for such. */
  lemma SaveIsSecureIff(incoming: seq<Doc>, existing: seq<Doc>, encrypt: Cipher)
    ensures Secure(Save(incoming, existing, encrypt)) <==> MarkersMeanClean(incoming, existing)
  {
    var saved := Save(incoming, existing, encrypt);
    forall i, f | 0 <= i < |incoming| && IsSecret(incoming[i].kind, f)
      ensures Clean(Get(saved[i].data, f)) <==>
              (Get(incoming[i].data, f) == Some(MARKER) ==> Clean(Get(PriorData(existing, incoming[i].id), f)))
    {
      SavedField(incoming, existing, encrypt, i, f);
      SealClean(Get(incoming[i].data, f), Get(PriorData(existing, incoming[i].id), f), i, f, encrypt);
    }
    assert forall i :: 0 <= i < |incoming| ==> saved[i].kind == incoming[i].kind;
  }

  /** One request to store documents; each encrypts with nonces of its own. */
  datatype Write = Write(docs: seq<Doc>, encrypt: Cipher)

  function Stored(writes: seq<Write>): seq<Doc> {
    if writes == [] then []
    else
      var last := writes[|writes| - 1];
      Save(last.docs, Stored(writes[..|writes| - 1]), last.encrypt)
  }

  /** A stored document whose id comes back has the kind it had. */
  ghost predicate KindKept(d: Doc, existing: seq<Doc>) {
    Prior(existing, d.id).Some? ==> Prior(existing, d.id).value.kind == d.kind
  }

  ghost predicate KindsKept(writes: seq<Write>) {
    forall n, i :: 0 <= n < |writes| && 0 <= i < |writes[n].docs| ==> KindKept(writes[n].docs[i], Stored(writes[..n]))
  }

  /** v is what write w made of a text sent for field f of id: sent encrypted, or encrypted by w. */
  ghost predicate MadeBy(w: Write, id: string, f: string, v: string) {
    exists k :: 0 <= k < |w.docs| && SentAs(w, k, id, f, v)
  }

  ghost predicate SentAs(w: Write, k: nat, id: string, f: string, v: string)
    requires k < |w.docs|
  {
    var sent := Get(w.docs[k].data, f);
    && w.docs[k].id == id && IsSecret(w.docs[k].kind, f) && Truthy(sent) && sent.value != MARKER
    && v == if IsEncrypted(sent.value) then sent.value else PREFIX + w.encrypt(k, f, sent.value)
  }

  ghost predicate Accounted(writes: seq<Write>, id: string, f: string, v: string) {
    exists n :: 0 <= n < |writes| && MadeBy(writes[n], id, f, v)
  }

  lemma {:induction false} PriorIsMember(docs: seq<Doc>, id: string)
    ensures Prior(docs, id).Some? ==>
              exists i :: 0 <= i < |docs| && docs[i] == Prior(docs, id).value && docs[i].id == id
  {
    if docs != [] && docs[|docs| - 1].id != id {
      PriorIsMember(docs[..|docs| - 1], id);
      var shorter := docs[..|docs| - 1];
      assert forall i :: 0 <= i < |shorter| ==> shorter[i] == docs[i];
    }
  }

  lemma AccountedLater(writes: seq<Write>, id: string, f: string, v: string)
    requires writes != [] && Accounted(writes[..|writes| - 1], id, f, v)
    ensures Accounted(writes, id, f, v)
  {
    var n :| 0 <= n < |writes| - 1 && MadeBy(writes[..|writes| - 1][n], id, f, v);
    assert writes[n] == writes[..|writes| - 1][n];
  }

  lemma KindsKeptEarlier(writes: seq<Write>)
    requires KindsKept(writes) && writes != []
    ensures KindsKept(writes[..|writes| - 1])
  {
    var before := writes[..|writes| - 1];
    forall n, i | 0 <= n < |before| && 0 <= i < |before[n].docs|
      ensures KindKept(before[n].docs[i], Stored(before[..n]))
    {
      assert before[n] == writes[n] && before[..n] == writes[..n];
    }
  }

  /**
   * Whatever was written, each set secret of a stored document was sent once, as itself, for that id
   * and field, and went through encryption at most once.
   */
  lemma {:induction false} SecretsAreAccounted(writes: seq<Write>, i: nat, f: string)
    requires KindsKept(writes) && i < |Stored(writes)| && IsSecret(Stored(writes)[i].kind, f)
    requires Truthy(Get(Stored(writes)[i].data, f))
    ensures Accounted(writes, Stored(writes)[i].id, f, Get(Stored(writes)[i].data, f).value)
  {
    var last, before := writes[|writes| - 1], writes[..|writes| - 1];
    var existing, d := Stored(before), last.docs[i];
    var stored := Get(Stored(writes)[i].data, f);
    SavedField(last.docs, existing, last.encrypt, i, f);
    if Get(d.data, f) == Some(MARKER) {
      assert KindKept(d, Stored(writes[..|writes| - 1]));
      PriorIsMember(existing, d.id);
      var j :| 0 <= j < |existing| && existing[j] == Prior(existing, d.id).value && existing[j].id == d.id;
      KindsKeptEarlier(writes);
      SecretsAreAccounted(before, j, f);
      AccountedLater(writes, d.id, f, stored.value);
    } else {
      assert SentAs(last, i, d.id, f, stored.value);
      assert MadeBy(writes[|writes| - 1], d.id, f, stored.value);
    }
  }

  /** After any run of writes every stored secret is empty or encrypted, and none is the marker. */
  lemma RunsStaySecure(writes: seq<Write>)
    requires KindsKept(writes)
    ensures Secure(Stored(writes))
    ensures forall i, f :: 0 <= i < |Stored(writes)| && IsSecret(Stored(writes)[i].kind, f) ==>
              Get(Stored(writes)[i].data, f) != Some(MARKER)
  {
    var docs := Stored(writes);
    forall i, f | 0 <= i < |docs| && IsSecret(docs[i].kind, f)
      ensures Clean(Get(docs[i].data, f)) && Get(docs[i].data, f) != Some(MARKER)
    {
      var v := Get(docs[i].data, f);
      if Truthy(v) {
        SecretsAreAccounted(writes, i, f);
        AccountedIsEncrypted(writes, docs[i].id, f, v.value);
        EncryptedIsNotMarker(v.value);
      }
    }
  }

  /** Every other field of a stored document is the one the last write sent. */
  lemma RestIsStoredAsSent(writes: seq<Write>, i: nat)
    requires writes != [] && i < |Stored(writes)|
    ensures var sent, stored := writes[|writes| - 1].docs, Stored(writes)[i];
            && |sent| == |Stored(writes)| && stored.id == sent[i].id && stored.kind == sent[i].kind
            && stored.data.Keys == sent[i].data.Keys
            && forall f :: f in stored.data && !IsSecret(stored.kind, f) ==> stored.data[f] == sent[i].data[f]
  {
    var last := writes[|writes| - 1];
    SealedIsGuarded(last.docs[i], Stored(writes[..|writes| - 1]), i, last.encrypt);
  }

  lemma AccountedIsEncrypted(writes: seq<Write>, id: string, f: string, v: string)
    requires Accounted(writes, id, f, v)
    ensures IsEncrypted(v)
  {
  }

  /** When an id changes its kind, a field that was no secret can be kept in plain text as one. */
  lemma KindChangeKeepsPlainText(id: string, kind: string, plain: string, a: Cipher, b: Cipher)
    requires !IsSecret(kind, "apiToken") && plain != "" && !IsEncrypted(plain)
    ensures var first := Write([Doc(id, kind, map["apiToken" := Some(plain)])], a);
            var second := Write([Doc(id, "jira", map["apiToken" := Some(MARKER)])], b);
            Stored([first, second]) == [Doc(id, "jira", map["apiToken" := Some(plain)])]
                && !Secure(Stored([first, second]))
  {
    var d, e := Doc(id, kind, map["apiToken" := Some(plain)]), Doc(id, "jira", map["apiToken" := Some(MARKER)]);
    var first, second := Write([d], a), Write([e], b);
    assert [first][..0] == [] && [first, second][..1] == [first];
    assert Sealed(d, [], 0, a).data == d.data;
    assert Stored([first]) == [d];
    assert Prior([d], id) == Some(d);
    assert SecretFields("jira") == ["apiToken"] && "apiToken" in ["apiToken"];
    var out := Doc(id, "jira", map["apiToken" := Some(plain)]);
    assert Sealed(e, [d], 0, b).data == out.data;
    assert Stored([first, second]) == [out];
    assert !Clean(Get(out.data, "apiToken"));
    assert [out][0] == out;
  }
}
