/** The three record kinds of the registry and the constraints their model
    fields declare: maximum lengths, the closed choice set of `good_type`, and
    uniqueness of `cpf` and `cnpj` within their tables. Tables are finite maps
    from the store-assigned integer id to the record. */
module Models {

  datatype Option<T> = None | Some(value: T)

  // Maximum lengths declared on the CharFields.
  const MaxCpf := 11
  const MaxName := 200
  const MaxZipcode := 8
  const MaxPhoneNumber := 12
  const MaxCnpj := 14
  const MaxSocialReason := 200
  const MaxFantasyName := 200
  const MaxStateRegistration := 12
  const MaxOwner := 14
  const MaxGoodType := 9

  /** The values accepted for `good_type` (GOODS_TYPE). */
  const GoodsType: set<string> := {"imovel", "automovel", "empresa"}

  /** A natural person; `cpf` is its natural key. */
  datatype PhysicalPerson = PhysicalPerson(
    cpf: string,
    name: string,
    zipcode: string,
    email: string,
    phoneNumber: string)

  /** A legal entity; `cnpj` is its natural key, `owner` a plain string that
      is meant to hold some cpf or cnpj (not a foreign key). */
  datatype LegalPerson = LegalPerson(
    cnpj: string,
    socialReason: string,
    fantasyName: string,
    stateRegistration: string,
    zipcode: string,
    email: string,
    phoneNumber: string,
    owner: string)

  /** A good; `description` is a TextField with no length bound. */
  datatype Good = Good(goodType: string, description: string, owner: string)

  /** The declared maximum lengths of a natural person's fields. */
  predicate PhysicalFits(p: PhysicalPerson) {
    && |p.cpf| <= MaxCpf
    && |p.name| <= MaxName
    && |p.zipcode| <= MaxZipcode
    && |p.phoneNumber| <= MaxPhoneNumber
  }

  /** The declared maximum lengths of a legal entity's fields. */
  predicate LegalFits(l: LegalPerson) {
    && |l.cnpj| <= MaxCnpj
    && |l.socialReason| <= MaxSocialReason
    && |l.fantasyName| <= MaxFantasyName
    && |l.stateRegistration| <= MaxStateRegistration
    && |l.zipcode| <= MaxZipcode
    && |l.phoneNumber| <= MaxPhoneNumber
    && |l.owner| <= MaxOwner
  }

  /** A good's type is one of the choices and its owner fits its column. */
  predicate GoodFits(g: Good) {
    g.goodType in GoodsType && |g.owner| <= MaxOwner
  }

  /** `unique=True` on `cpf`: no two stored natural persons share a cpf. */
  predicate UniqueCpfs(people: map<nat, PhysicalPerson>) {
    forall i, j :: i in people && j in people && people[i].cpf == people[j].cpf ==> i == j
  }

  /** `unique=True` on `cnpj`: no two stored legal entities share a cnpj. */
  predicate UniqueCnpjs(legal: map<nat, LegalPerson>) {
    forall i, j :: i in legal && j in legal && legal[i].cnpj == legal[j].cnpj ==> i == j
  }

  /** No natural person holds `cpf`, apart from the record being updated. */
  predicate CpfFree(people: map<nat, PhysicalPerson>, cpf: string, instance: Option<nat>) {
    forall id :: id in people && instance != Some(id) ==> people[id].cpf != cpf
  }

  /** No legal entity holds `cnpj`, apart from the record being updated. */
  predicate CnpjFree(legal: map<nat, LegalPerson>, cnpj: string, instance: Option<nat>) {
    forall id :: id in legal && instance != Some(id) ==> legal[id].cnpj != cnpj
  }

  /** The ids of the natural persons holding `cpf`
      (`PhysicalPerson.objects.filter(cpf=...)`). */
  function PeopleWithCpf(people: map<nat, PhysicalPerson>, cpf: string): set<nat> {
    set id | id in people && people[id].cpf == cpf
  }

  /** The ids of the legal entities holding `cnpj`
      (`LegalPerson.objects.filter(cnpj=...)`). */
  function EntitiesWithCnpj(legal: map<nat, LegalPerson>, cnpj: string): set<nat> {
    set id | id in legal && legal[id].cnpj == cnpj
  }

  /** The set of cpfs stored in the table. */
  function Cpfs(people: map<nat, PhysicalPerson>): set<string> {
    set id | id in people :: people[id].cpf
  }

  /** The count of a cpf filter is zero exactly when no record holds it. */
  lemma CpfCountZero(people: map<nat, PhysicalPerson>, cpf: string)
    ensures |PeopleWithCpf(people, cpf)| == 0
        <==> !exists id :: id in people && people[id].cpf == cpf
  {
    var s := PeopleWithCpf(people, cpf);
    if id :| id in people && people[id].cpf == cpf {
      assert id in s;
    } else {
      assert s == {};
    }
  }

  /** The count of a cnpj filter is zero exactly when no record holds it. */
  lemma CnpjCountZero(legal: map<nat, LegalPerson>, cnpj: string)
    ensures |EntitiesWithCnpj(legal, cnpj)| == 0
        <==> !exists id :: id in legal && legal[id].cnpj == cnpj
  {
    var s := EntitiesWithCnpj(legal, cnpj);
    if id :| id in legal && legal[id].cnpj == cnpj {
      assert id in s;
    } else {
      assert s == {};
    }
  }

  /** Under `unique=True`, filtering on a cpf finds at most one record. */
  lemma CpfMatchesAtMostOne(people: map<nat, PhysicalPerson>, cpf: string)
    requires UniqueCpfs(people)
    ensures |PeopleWithCpf(people, cpf)| <= 1
  {
    var s := PeopleWithCpf(people, cpf);
    if s != {} {
      var id :| id in s;
      assert s == {id};
    }
  }

  /** Under `unique=True`, filtering on a cnpj finds at most one record. */
  lemma CnpjMatchesAtMostOne(legal: map<nat, LegalPerson>, cnpj: string)
    requires UniqueCnpjs(legal)
    ensures |EntitiesWithCnpj(legal, cnpj)| <= 1
  {
    var s := EntitiesWithCnpj(legal, cnpj);
    if s != {} {
      var id :| id in s;
      assert s == {id};
    }
  }

  /** cpf is a natural key: a table with unique cpfs holds exactly as many
      distinct cpfs as it holds records. */
  lemma {:induction false} UniqueCpfsCount(people: map<nat, PhysicalPerson>)
    requires UniqueCpfs(people)
    ensures |Cpfs(people)| == |people|
    decreases |people|
  {
    if people != map[] {
      var k :| k in people;
      var rest := people - {k};
      assert |rest| == |people| - 1 by {
        assert rest.Keys == people.Keys - {k};
      }
      assert UniqueCpfs(rest);
      UniqueCpfsCount(rest);
      assert Cpfs(people) == Cpfs(rest) + {people[k].cpf} by {
        forall c | c in Cpfs(people) ensures c in Cpfs(rest) + {people[k].cpf} {
          var id :| id in people && people[id].cpf == c;
          if id != k { assert id in rest; }
        }
      }
      assert people[k].cpf !in Cpfs(rest);
    } else {
      assert Cpfs(people) == {};
    }
  }

  /** Saving a natural person under `id` whose cpf is free apart from that id
      keeps cpfs unique (create: a fresh id; update: the record's own id). */
  lemma UniqueCpfsAfterSave(people: map<nat, PhysicalPerson>, id: nat, p: PhysicalPerson)
    requires UniqueCpfs(people)
    requires CpfFree(people, p.cpf, Some(id))
    ensures UniqueCpfs(people[id := p])
  {
  }

  /** Saving a legal entity under `id` whose cnpj is free apart from that id
      keeps cnpjs unique. */
  lemma UniqueCnpjsAfterSave(legal: map<nat, LegalPerson>, id: nat, l: LegalPerson)
    requires UniqueCnpjs(legal)
    requires CnpjFree(legal, l.cnpj, Some(id))
    ensures UniqueCnpjs(legal[id := l])
  {
  }

  /** Removing a record preserves uniqueness of cpfs. */
  lemma UniqueCpfsAfterDelete(people: map<nat, PhysicalPerson>, id: nat)
    requires UniqueCpfs(people)
    ensures UniqueCpfs(people - {id})
  {
  }

  /** Removing a record preserves uniqueness of cnpjs. */
  lemma UniqueCnpjsAfterDelete(legal: map<nat, LegalPerson>, id: nat)
    requires UniqueCnpjs(legal)
    ensures UniqueCnpjs(legal - {id})
  {
  }

  /** Every choice of `good_type` fits its declared `max_length` of 9. */
  lemma GoodsTypeFitsMaxLength(t: string)
    ensures t in GoodsType ==> |t| <= MaxGoodType
  {
  }

  /** Deleting a record removes exactly that key: one fewer record, and every
      other record unchanged. */
  lemma {:induction false} DeleteRemovesExactlyOne<R>(table: map<nat, R>, id: nat)
    requires id in table
    ensures |table - {id}| == |table| - 1
    ensures forall k :: k in table && k != id <==> k in table - {id}
    ensures forall k :: k in table - {id} ==> (table - {id})[k] == table[k]
  {
    assert (table - {id}).Keys == table.Keys - {id};
  }

  /** Saving under an id not yet in the table adds exactly one record, and
      every record already there is kept unchanged. */
  lemma InsertAddsExactlyOne<R>(table: map<nat, R>, id: nat, r: R)
    requires id !in table
    ensures |table[id := r]| == |table| + 1
    ensures id in table[id := r] && table[id := r][id] == r
    ensures forall k :: k in table ==> k in table[id := r] && table[id := r][k] == table[k]
  {
  }

  /** Saving under an id already in the table replaces that one record: the
      keys, and so the count, stay the same. */
  lemma {:induction false} UpdateKeepsKeys<R>(table: map<nat, R>, id: nat, r: R)
    requires id in table
    ensures table[id := r].Keys == table.Keys
    ensures |table[id := r]| == |table|
    ensures forall k :: k in table && k != id ==> table[id := r][k] == table[k]
  {
    assert table[id := r].Keys == table.Keys;
  }
}
