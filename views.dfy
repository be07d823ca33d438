/** The request handlers of the registry: the ownership check and the six
    view functions (list/create and retrieve/update/delete for each record
    kind), as methods of a Registry that holds the three tables and their id
    sequences. Each handler returns the status code and the body it sends. */
module Views {
  import opened Models
  import opened Validation

  /** A request to a list route. */
  datatype ListRequest<P> = ListAll | Post(data: P)

  /** A request to a detail route. */
  datatype DetailRequest<P> = Get | Put(data: P) | Delete

  /** What a response carries: a record with its id, a whole table, the
      serializer's errors, the fixed owner error, or nothing. */
  datatype Body =
    | NoBody
    | PhysicalPersonData(id: nat, physicalPerson: PhysicalPerson)
    | LegalPersonData(id: nat, legalPerson: LegalPerson)
    | GoodData(id: nat, good: Good)
    | PhysicalPeopleData(physicalPeople: map<nat, PhysicalPerson>)
    | LegalPeopleData(legalPeople: map<nat, LegalPerson>)
    | GoodsData(goods: map<nat, Good>)
    | Errors(violations: set<Violation>)
    | OwnerError(message: string)

  datatype Response = Response(status: nat, body: Body)

  const OwnerMessage := "Must be an existing cpf or cnpj."

  /** Whether `owner` is the cpf of some stored natural person or the cnpj of
      some stored legal entity: two filter counts, false when both are zero. */
  function CheckOwnerExists(people: map<nat, PhysicalPerson>, legal: map<nat, LegalPerson>,
                            owner: string): (r: bool)
    ensures r <==> ((exists id :: id in people && people[id].cpf == owner)
                 || (exists id :: id in legal && legal[id].cnpj == owner))
  {
    CpfCountZero(people, owner);
    CnpjCountZero(legal, owner);
    var physicalPerson := |PeopleWithCpf(people, owner)|;
    var legalPerson := |EntitiesWithCnpj(legal, owner)|;
    if physicalPerson == 0 && legalPerson == 0 then false else true
  }

  /** Once a natural person is the only holder of a cpf that no legal entity
      holds, deleting that person leaves the cpf resolving to no owner: a
      record that names it keeps a dangling owner (there is no cascade). */
  lemma DeletingSoleHolderOrphansOwner(people: map<nat, PhysicalPerson>,
                                       legal: map<nat, LegalPerson>, id: nat)
    requires UniqueCpfs(people)
    requires id in people
    requires !exists k :: k in legal && legal[k].cnpj == people[id].cpf
    ensures CheckOwnerExists(people, legal, people[id].cpf)
    ensures !CheckOwnerExists(people - {id}, legal, people[id].cpf)
  {
  }

  /** A legal entity cannot be created as its own owner: when its cnpj is
      free, naming that cnpj as owner resolves only if a natural person
      holds the same string as cpf. */
  lemma SelfOwnedCreateNeedsPhysicalHolder(people: map<nat, PhysicalPerson>,
                                           legal: map<nat, LegalPerson>, l: LegalPerson)
    requires CnpjFree(legal, l.cnpj, None)
    requires l.owner == l.cnpj
    ensures CheckOwnerExists(people, legal, l.owner)
        <==> exists id :: id in people && people[id].cpf == l.cnpj
  {
  }

  /** The store invariant: natural keys are unique, every stored id comes
      from its table's sequence, and every stored record satisfies the field
      constraints it was validated against. */
  ghost predicate StoreInvariant(people: map<nat, PhysicalPerson>, legal: map<nat, LegalPerson>,
                                 goods: map<nat, Good>, nextPhysicalId: nat, nextLegalId: nat,
                                 nextGoodId: nat, isEmail: string -> bool)
  {
    && UniqueCpfs(people)
    && UniqueCnpjs(legal)
    && 1 <= nextPhysicalId && 1 <= nextLegalId && 1 <= nextGoodId
    && (forall id :: id in people ==> 1 <= id < nextPhysicalId)
    && (forall id :: id in legal ==> 1 <= id < nextLegalId)
    && (forall id :: id in goods ==> 1 <= id < nextGoodId)
    && (forall id :: id in people ==> PhysicalFits(people[id]) && isEmail(people[id].email))
    && (forall id :: id in legal ==> LegalFits(legal[id]) && isEmail(legal[id].email))
    && (forall id :: id in goods ==> GoodFits(goods[id]))
  }

  /** Saving a validated natural person, under a fresh id (create) or its
      own id (update), keeps the store invariant. */
  lemma PhysicalSaveKeepsInvariant(people: map<nat, PhysicalPerson>, legal: map<nat, LegalPerson>,
                                   goods: map<nat, Good>, nextPhysicalId: nat, nextLegalId: nat,
                                   nextGoodId: nat, isEmail: string -> bool,
                                   id: nat, p: PhysicalPerson, nextPhysicalId': nat)
    requires StoreInvariant(people, legal, goods, nextPhysicalId, nextLegalId, nextGoodId, isEmail)
    requires PhysicalFits(p) && isEmail(p.email) && CpfFree(people, p.cpf, Some(id))
    requires 1 <= id < nextPhysicalId' && nextPhysicalId <= nextPhysicalId'
    ensures StoreInvariant(people[id := p], legal, goods, nextPhysicalId', nextLegalId, nextGoodId, isEmail)
  {
    UniqueCpfsAfterSave(people, id, p);
  }

  /** Saving a validated legal entity keeps the store invariant. */
  lemma LegalSaveKeepsInvariant(people: map<nat, PhysicalPerson>, legal: map<nat, LegalPerson>,
                                goods: map<nat, Good>, nextPhysicalId: nat, nextLegalId: nat,
                                nextGoodId: nat, isEmail: string -> bool,
                                id: nat, l: LegalPerson, nextLegalId': nat)
    requires StoreInvariant(people, legal, goods, nextPhysicalId, nextLegalId, nextGoodId, isEmail)
    requires LegalFits(l) && isEmail(l.email) && CnpjFree(legal, l.cnpj, Some(id))
    requires 1 <= id < nextLegalId' && nextLegalId <= nextLegalId'
    ensures StoreInvariant(people, legal[id := l], goods, nextPhysicalId, nextLegalId', nextGoodId, isEmail)
  {
    UniqueCnpjsAfterSave(legal, id, l);
  }

  /** Saving a validated good keeps the store invariant. */
  lemma GoodSaveKeepsInvariant(people: map<nat, PhysicalPerson>, legal: map<nat, LegalPerson>,
                               goods: map<nat, Good>, nextPhysicalId: nat, nextLegalId: nat,
                               nextGoodId: nat, isEmail: string -> bool,
                               id: nat, g: Good, nextGoodId': nat)
    requires StoreInvariant(people, legal, goods, nextPhysicalId, nextLegalId, nextGoodId, isEmail)
    requires GoodFits(g)
    requires 1 <= id < nextGoodId' && nextGoodId <= nextGoodId'
    ensures StoreInvariant(people, legal, goods[id := g], nextPhysicalId, nextLegalId, nextGoodId', isEmail)
  {
  }

  /** Deleting a natural person keeps the store invariant. */
  lemma PhysicalDeleteKeepsInvariant(people: map<nat, PhysicalPerson>, legal: map<nat, LegalPerson>,
                                     goods: map<nat, Good>, nextPhysicalId: nat, nextLegalId: nat,
                                     nextGoodId: nat, isEmail: string -> bool, id: nat)
    requires StoreInvariant(people, legal, goods, nextPhysicalId, nextLegalId, nextGoodId, isEmail)
    ensures StoreInvariant(people - {id}, legal, goods, nextPhysicalId, nextLegalId, nextGoodId, isEmail)
  {
    UniqueCpfsAfterDelete(people, id);
  }

  /** Deleting a legal entity keeps the store invariant. */
  lemma LegalDeleteKeepsInvariant(people: map<nat, PhysicalPerson>, legal: map<nat, LegalPerson>,
                                  goods: map<nat, Good>, nextPhysicalId: nat, nextLegalId: nat,
                                  nextGoodId: nat, isEmail: string -> bool, id: nat)
    requires StoreInvariant(people, legal, goods, nextPhysicalId, nextLegalId, nextGoodId, isEmail)
    ensures StoreInvariant(people, legal - {id}, goods, nextPhysicalId, nextLegalId, nextGoodId, isEmail)
  {
    UniqueCnpjsAfterDelete(legal, id);
  }

  /** Deleting a good keeps the store invariant. */
  lemma GoodDeleteKeepsInvariant(people: map<nat, PhysicalPerson>, legal: map<nat, LegalPerson>,
                                 goods: map<nat, Good>, nextPhysicalId: nat, nextLegalId: nat,
                                 nextGoodId: nat, isEmail: string -> bool, id: nat)
    requires StoreInvariant(people, legal, goods, nextPhysicalId, nextLegalId, nextGoodId, isEmail)
    ensures StoreInvariant(people, legal, goods - {id}, nextPhysicalId, nextLegalId, nextGoodId, isEmail)
  {
  }

  class Registry {
    var physicalPeople: map<nat, PhysicalPerson>
    var legalPeople: map<nat, LegalPerson>
    var goods: map<nat, Good>
    // The next value of each table's auto-increment primary key.
    var nextPhysicalId: nat
    var nextLegalId: nat
    var nextGoodId: nat
    /** The email-address syntax check of EmailField, left uninterpreted. */
    const isEmail: string -> bool

    /** The store invariant over this registry's tables and sequences. */
    ghost predicate Valid()
      reads this
    {
      StoreInvariant(physicalPeople, legalPeople, goods,
                     nextPhysicalId, nextLegalId, nextGoodId, isEmail)
    }

    /** An empty store whose sequences start at 1. */
    constructor (isEmail: string -> bool)
      ensures Valid()
      ensures this.isEmail == isEmail
      ensures physicalPeople == map[] && legalPeople == map[] && goods == map[]
      ensures nextPhysicalId == 1 && nextLegalId == 1 && nextGoodId == 1
    {
      this.isEmail := isEmail;
      physicalPeople, legalPeople, goods := map[], map[], map[];
      nextPhysicalId, nextLegalId, nextGoodId := 1, 1, 1;
    }

    /** physical_people_list: GET returns every natural person; POST saves a
        valid payload under a fresh id (201) or reports its errors (400). */
    method PhysicalPeopleList(req: ListRequest<PhysicalPerson>) returns (resp: Response)
      requires Valid()
      modifies this
      ensures Valid()
      ensures legalPeople == old(legalPeople) && goods == old(goods)
      ensures nextLegalId == old(nextLegalId) && nextGoodId == old(nextGoodId)
      ensures !resp.body.OwnerError?
      ensures req.ListAll? ==>
        resp == Response(200, PhysicalPeopleData(old(physicalPeople))) && unchanged(this)
      ensures req.Post? ==>
        var errs := PhysicalErrors(req.data, old(physicalPeople), None, isEmail);
        if errs == {} then
          && resp == Response(201, PhysicalPersonData(old(nextPhysicalId), req.data))
          && old(nextPhysicalId) !in old(physicalPeople)
          && physicalPeople == old(physicalPeople)[old(nextPhysicalId) := req.data]
          && nextPhysicalId == old(nextPhysicalId) + 1
          && |physicalPeople| == |old(physicalPeople)| + 1
        else
          resp == Response(400, Errors(errs)) && unchanged(this)
    {
      match req
      case ListAll =>
        resp := Response(200, PhysicalPeopleData(physicalPeople));
      case Post(data) =>
        resp := PhysicalPersonCreate(data);
    }

    /** POST to physical_people_list: a valid payload is saved under the next
        id with 201, an invalid one gets 400 with its errors. */
    method PhysicalPersonCreate(data: PhysicalPerson) returns (resp: Response)
      requires Valid()
      modifies this
      ensures Valid()
      ensures legalPeople == old(legalPeople) && goods == old(goods)
      ensures nextLegalId == old(nextLegalId) && nextGoodId == old(nextGoodId)
      ensures !resp.body.OwnerError?
      ensures var errs := PhysicalErrors(data, old(physicalPeople), None, isEmail);
        if errs == {} then
          && resp == Response(201, PhysicalPersonData(old(nextPhysicalId), data))
          && old(nextPhysicalId) !in old(physicalPeople)
          && physicalPeople == old(physicalPeople)[old(nextPhysicalId) := data]
          && nextPhysicalId == old(nextPhysicalId) + 1
          && |physicalPeople| == |old(physicalPeople)| + 1
        else
          resp == Response(400, Errors(errs)) && unchanged(this)
    {
      var errs := PhysicalErrors(data, physicalPeople, None, isEmail);
      if errs == {} {
        var id := nextPhysicalId;
        assert id !in physicalPeople;
        assert CpfFree(physicalPeople, data.cpf, Some(id));
        PhysicalSaveKeepsInvariant(physicalPeople, legalPeople, goods, nextPhysicalId, nextLegalId, nextGoodId, isEmail,
                                   id, data, nextPhysicalId + 1);
        InsertAddsExactlyOne(physicalPeople, id, data);
        physicalPeople := physicalPeople[id := data];
        nextPhysicalId := nextPhysicalId + 1;
        resp := Response(201, PhysicalPersonData(id, data));
      } else {
        resp := Response(400, Errors(errs));
      }
    }

    /** physical_people_detail: 404 for an unknown id whatever the request;
        otherwise GET returns the record, PUT replaces it when valid (cpf
        uniqueness ignoring the record itself) and DELETE removes it. */
    method PhysicalPeopleDetail(id: nat, req: DetailRequest<PhysicalPerson>) returns (resp: Response)
      requires Valid()
      modifies this
      ensures Valid()
      ensures legalPeople == old(legalPeople) && goods == old(goods)
      ensures nextPhysicalId == old(nextPhysicalId)
      ensures nextLegalId == old(nextLegalId) && nextGoodId == old(nextGoodId)
      ensures !resp.body.OwnerError?
      ensures id !in old(physicalPeople) ==> resp == Response(404, NoBody) && unchanged(this)
      ensures id in old(physicalPeople) && req.Get? ==>
        resp == Response(200, PhysicalPersonData(id, old(physicalPeople)[id])) && unchanged(this)
      ensures id in old(physicalPeople) && req.Put? ==>
        var errs := PhysicalErrors(req.data, old(physicalPeople), Some(id), isEmail);
        if errs == {} then
          && resp == Response(200, PhysicalPersonData(id, req.data))
          && physicalPeople == old(physicalPeople)[id := req.data]
          && physicalPeople.Keys == old(physicalPeople).Keys
        else
          resp == Response(400, Errors(errs)) && unchanged(this)
      ensures id in old(physicalPeople) && req.Delete? ==>
        resp == Response(200, NoBody) && physicalPeople == old(physicalPeople) - {id}
        && |physicalPeople| == |old(physicalPeople)| - 1
    {
      if id !in physicalPeople {
        return Response(404, NoBody);
      }
      match req
      case Get =>
        resp := Response(200, PhysicalPersonData(id, physicalPeople[id]));
      case Put(data) =>
        resp := PhysicalPersonUpdate(id, data);
      case Delete =>
        resp := PhysicalPersonDelete(id);
    }

    /** PUT to physical_people_detail on a stored id: a valid payload (its own
        cpf excluded from the uniqueness check) replaces the record with 200. */
    method PhysicalPersonUpdate(id: nat, data: PhysicalPerson) returns (resp: Response)
      requires Valid() && id in physicalPeople
      modifies this
      ensures Valid()
      ensures legalPeople == old(legalPeople) && goods == old(goods)
      ensures nextPhysicalId == old(nextPhysicalId)
      ensures nextLegalId == old(nextLegalId) && nextGoodId == old(nextGoodId)
      ensures !resp.body.OwnerError?
      ensures var errs := PhysicalErrors(data, old(physicalPeople), Some(id), isEmail);
        if errs == {} then
          && resp == Response(200, PhysicalPersonData(id, data))
          && physicalPeople == old(physicalPeople)[id := data]
          && physicalPeople.Keys == old(physicalPeople).Keys
        else
          resp == Response(400, Errors(errs)) && unchanged(this)
    {
      var errs := PhysicalErrors(data, physicalPeople, Some(id), isEmail);
      if errs == {} {
        PhysicalSaveKeepsInvariant(physicalPeople, legalPeople, goods, nextPhysicalId, nextLegalId, nextGoodId, isEmail,
                                   id, data, nextPhysicalId);
        UpdateKeepsKeys(physicalPeople, id, data);
        physicalPeople := physicalPeople[id := data];
        resp := Response(200, PhysicalPersonData(id, data));
      } else {
        resp := Response(400, Errors(errs));
      }
    }

    /** DELETE to physical_people_detail on a stored id: the record is removed
        with 200; nothing that refers to its cpf is touched. */
    method PhysicalPersonDelete(id: nat) returns (resp: Response)
      requires Valid() && id in physicalPeople
      modifies this
      ensures Valid()
      ensures legalPeople == old(legalPeople) && goods == old(goods)
      ensures nextPhysicalId == old(nextPhysicalId)
      ensures nextLegalId == old(nextLegalId) && nextGoodId == old(nextGoodId)
      ensures !resp.body.OwnerError?
      ensures resp == Response(200, NoBody)
      ensures physicalPeople == old(physicalPeople) - {id}
      ensures |physicalPeople| == |old(physicalPeople)| - 1
    {
      PhysicalDeleteKeepsInvariant(physicalPeople, legalPeople, goods, nextPhysicalId, nextLegalId, nextGoodId, isEmail, id);
      DeleteRemovesExactlyOne(physicalPeople, id);
      physicalPeople := physicalPeople - {id};
      resp := Response(200, NoBody);
    }

    /** legal_people_list: GET returns every legal entity; POST validates,
        then checks the owner against the current store, and only then saves
        under a fresh id (201). */
    method LegalPeopleList(req: ListRequest<LegalPerson>) returns (resp: Response)
      requires Valid()
      modifies this
      ensures Valid()
      ensures physicalPeople == old(physicalPeople) && goods == old(goods)
      ensures nextPhysicalId == old(nextPhysicalId) && nextGoodId == old(nextGoodId)
      ensures req.ListAll? ==>
        resp == Response(200, LegalPeopleData(old(legalPeople))) && unchanged(this)
      ensures req.Post? ==>
        var errs := LegalErrors(req.data, old(legalPeople), None, isEmail);
        if errs != {} then
          resp == Response(400, Errors(errs)) && unchanged(this)
        else if !CheckOwnerExists(old(physicalPeople), old(legalPeople), req.data.owner) then
          resp == Response(400, OwnerError(OwnerMessage)) && unchanged(this)
        else
          && resp == Response(201, LegalPersonData(old(nextLegalId), req.data))
          && old(nextLegalId) !in old(legalPeople)
          && legalPeople == old(legalPeople)[old(nextLegalId) := req.data]
          && nextLegalId == old(nextLegalId) + 1
          && |legalPeople| == |old(legalPeople)| + 1
    {
      match req
      case ListAll =>
        resp := Response(200, LegalPeopleData(legalPeople));
      case Post(data) =>
        resp := LegalPersonCreate(data);
    }

    /** POST to legal_people_list: field errors first, then the owner check
        against the store as it is, then the save under the next id with 201. */
    method LegalPersonCreate(data: LegalPerson) returns (resp: Response)
      requires Valid()
      modifies this
      ensures Valid()
      ensures physicalPeople == old(physicalPeople) && goods == old(goods)
      ensures nextPhysicalId == old(nextPhysicalId) && nextGoodId == old(nextGoodId)
      ensures var errs := LegalErrors(data, old(legalPeople), None, isEmail);
        if errs != {} then
          resp == Response(400, Errors(errs)) && unchanged(this)
        else if !CheckOwnerExists(old(physicalPeople), old(legalPeople), data.owner) then
          resp == Response(400, OwnerError(OwnerMessage)) && unchanged(this)
        else
          && resp == Response(201, LegalPersonData(old(nextLegalId), data))
          && old(nextLegalId) !in old(legalPeople)
          && legalPeople == old(legalPeople)[old(nextLegalId) := data]
          && nextLegalId == old(nextLegalId) + 1
          && |legalPeople| == |old(legalPeople)| + 1
    {
      var errs := LegalErrors(data, legalPeople, None, isEmail);
      if errs == {} {
        if CheckOwnerExists(physicalPeople, legalPeople, data.owner) {
          var id := nextLegalId;
          assert id !in legalPeople;
          assert CnpjFree(legalPeople, data.cnpj, Some(id));
          LegalSaveKeepsInvariant(physicalPeople, legalPeople, goods, nextPhysicalId, nextLegalId, nextGoodId, isEmail,
                                  id, data, nextLegalId + 1);
          InsertAddsExactlyOne(legalPeople, id, data);
          legalPeople := legalPeople[id := data];
          nextLegalId := nextLegalId + 1;
          resp := Response(201, LegalPersonData(id, data));
        } else {
          resp := Response(400, OwnerError(OwnerMessage));
        }
      } else {
        resp := Response(400, Errors(errs));
      }
    }

    /** legal_people_detail: 404 for an unknown id; PUT validates (cnpj
        uniqueness ignoring the record itself), then checks the owner against
        the store as it is before the save, then replaces the record. */
    method LegalPeopleDetail(id: nat, req: DetailRequest<LegalPerson>) returns (resp: Response)
      requires Valid()
      modifies this
      ensures Valid()
      ensures physicalPeople == old(physicalPeople) && goods == old(goods)
      ensures nextLegalId == old(nextLegalId)
      ensures nextPhysicalId == old(nextPhysicalId) && nextGoodId == old(nextGoodId)
      ensures id !in old(legalPeople) ==> resp == Response(404, NoBody) && unchanged(this)
      ensures id in old(legalPeople) && req.Get? ==>
        resp == Response(200, LegalPersonData(id, old(legalPeople)[id])) && unchanged(this)
      ensures id in old(legalPeople) && req.Put? ==>
        var errs := LegalErrors(req.data, old(legalPeople), Some(id), isEmail);
        if errs != {} then
          resp == Response(400, Errors(errs)) && unchanged(this)
        else if !CheckOwnerExists(old(physicalPeople), old(legalPeople), req.data.owner) then
          resp == Response(400, OwnerError(OwnerMessage)) && unchanged(this)
        else
          && resp == Response(200, LegalPersonData(id, req.data))
          && legalPeople == old(legalPeople)[id := req.data]
          && legalPeople.Keys == old(legalPeople).Keys
      ensures id in old(legalPeople) && req.Delete? ==>
        resp == Response(200, NoBody) && legalPeople == old(legalPeople) - {id}
        && |legalPeople| == |old(legalPeople)| - 1
    {
      if id !in legalPeople {
        return Response(404, NoBody);
      }
      match req
      case Get =>
        resp := Response(200, LegalPersonData(id, legalPeople[id]));
      case Put(data) =>
        resp := LegalPersonUpdate(id, data);
      case Delete =>
        resp := LegalPersonDelete(id);
    }

    /** PUT to legal_people_detail on a stored id: field errors (own cnpj
        excluded), then the owner check against the store before the save,
        then the record is replaced with 200. */
    method LegalPersonUpdate(id: nat, data: LegalPerson) returns (resp: Response)
      requires Valid() && id in legalPeople
      modifies this
      ensures Valid()
      ensures physicalPeople == old(physicalPeople) && goods == old(goods)
      ensures nextLegalId == old(nextLegalId)
      ensures nextPhysicalId == old(nextPhysicalId) && nextGoodId == old(nextGoodId)
      ensures var errs := LegalErrors(data, old(legalPeople), Some(id), isEmail);
        if errs != {} then
          resp == Response(400, Errors(errs)) && unchanged(this)
        else if !CheckOwnerExists(old(physicalPeople), old(legalPeople), data.owner) then
          resp == Response(400, OwnerError(OwnerMessage)) && unchanged(this)
        else
          && resp == Response(200, LegalPersonData(id, data))
          && legalPeople == old(legalPeople)[id := data]
          && legalPeople.Keys == old(legalPeople).Keys
    {
      var errs := LegalErrors(data, legalPeople, Some(id), isEmail);
      if errs == {} {
        if CheckOwnerExists(physicalPeople, legalPeople, data.owner) {
          LegalSaveKeepsInvariant(physicalPeople, legalPeople, goods, nextPhysicalId, nextLegalId, nextGoodId, isEmail,
                                  id, data, nextLegalId);
          UpdateKeepsKeys(legalPeople, id, data);
          legalPeople := legalPeople[id := data];
          resp := Response(200, LegalPersonData(id, data));
        } else {
          resp := Response(400, OwnerError(OwnerMessage));
        }
      } else {
        resp := Response(400, Errors(errs));
      }
    }

    /** DELETE to legal_people_detail on a stored id: the record is removed
        with 200; goods and natural persons are not touched. */
    method LegalPersonDelete(id: nat) returns (resp: Response)
      requires Valid() && id in legalPeople
      modifies this
      ensures Valid()
      ensures physicalPeople == old(physicalPeople) && goods == old(goods)
      ensures nextLegalId == old(nextLegalId)
      ensures nextPhysicalId == old(nextPhysicalId) && nextGoodId == old(nextGoodId)
      ensures resp == Response(200, NoBody)
      ensures legalPeople == old(legalPeople) - {id}
      ensures |legalPeople| == |old(legalPeople)| - 1
    {
      LegalDeleteKeepsInvariant(physicalPeople, legalPeople, goods, nextPhysicalId, nextLegalId, nextGoodId, isEmail, id);
      DeleteRemovesExactlyOne(legalPeople, id);
      legalPeople := legalPeople - {id};
      resp := Response(200, NoBody);
    }

    /** goods_list: GET returns every good; POST validates, checks the owner,
        and saves under a fresh id (201). */
    method GoodsList(req: ListRequest<Good>) returns (resp: Response)
      requires Valid()
      modifies this
      ensures Valid()
      ensures physicalPeople == old(physicalPeople) && legalPeople == old(legalPeople)
      ensures nextPhysicalId == old(nextPhysicalId) && nextLegalId == old(nextLegalId)
      ensures req.ListAll? ==>
        resp == Response(200, GoodsData(old(goods))) && unchanged(this)
      ensures req.Post? ==>
        var errs := GoodErrors(req.data);
        if errs != {} then
          resp == Response(400, Errors(errs)) && unchanged(this)
        else if !CheckOwnerExists(old(physicalPeople), old(legalPeople), req.data.owner) then
          resp == Response(400, OwnerError(OwnerMessage)) && unchanged(this)
        else
          && resp == Response(201, GoodData(old(nextGoodId), req.data))
          && old(nextGoodId) !in old(goods)
          && goods == old(goods)[old(nextGoodId) := req.data]
          && nextGoodId == old(nextGoodId) + 1
          && |goods| == |old(goods)| + 1
    {
      match req
      case ListAll =>
        resp := Response(200, GoodsData(goods));
      case Post(data) =>
        resp := GoodCreate(data);
    }

    /** POST to goods_list: choice and length errors first, then the owner
        check, then the save under the next id with 201. */
    method GoodCreate(data: Good) returns (resp: Response)
      requires Valid()
      modifies this
      ensures Valid()
      ensures physicalPeople == old(physicalPeople) && legalPeople == old(legalPeople)
      ensures nextPhysicalId == old(nextPhysicalId) && nextLegalId == old(nextLegalId)
      ensures var errs := GoodErrors(data);
        if errs != {} then
          resp == Response(400, Errors(errs)) && unchanged(this)
        else if !CheckOwnerExists(old(physicalPeople), old(legalPeople), data.owner) then
          resp == Response(400, OwnerError(OwnerMessage)) && unchanged(this)
        else
          && resp == Response(201, GoodData(old(nextGoodId), data))
          && old(nextGoodId) !in old(goods)
          && goods == old(goods)[old(nextGoodId) := data]
          && nextGoodId == old(nextGoodId) + 1
          && |goods| == |old(goods)| + 1
    {
      var errs := GoodErrors(data);
      if errs == {} {
        if CheckOwnerExists(physicalPeople, legalPeople, data.owner) {
          var id := nextGoodId;
          assert id !in goods;
          GoodSaveKeepsInvariant(physicalPeople, legalPeople, goods, nextPhysicalId, nextLegalId, nextGoodId, isEmail,
                                 id, data, nextGoodId + 1);
          InsertAddsExactlyOne(goods, id, data);
          goods := goods[id := data];
          nextGoodId := nextGoodId + 1;
          resp := Response(201, GoodData(id, data));
        } else {
          resp := Response(400, OwnerError(OwnerMessage));
        }
      } else {
        resp := Response(400, Errors(errs));
      }
    }

    /** goods_detail: 404 for an unknown id; PUT validates, checks the owner,
        then replaces the good; DELETE removes it. */
    method GoodsDetail(id: nat, req: DetailRequest<Good>) returns (resp: Response)
      requires Valid()
      modifies this
      ensures Valid()
      ensures physicalPeople == old(physicalPeople) && legalPeople == old(legalPeople)
      ensures nextGoodId == old(nextGoodId)
      ensures nextPhysicalId == old(nextPhysicalId) && nextLegalId == old(nextLegalId)
      ensures id !in old(goods) ==> resp == Response(404, NoBody) && unchanged(this)
      ensures id in old(goods) && req.Get? ==>
        resp == Response(200, GoodData(id, old(goods)[id])) && unchanged(this)
      ensures id in old(goods) && req.Put? ==>
        var errs := GoodErrors(req.data);
        if errs != {} then
          resp == Response(400, Errors(errs)) && unchanged(this)
        else if !CheckOwnerExists(old(physicalPeople), old(legalPeople), req.data.owner) then
          resp == Response(400, OwnerError(OwnerMessage)) && unchanged(this)
        else
          && resp == Response(200, GoodData(id, req.data))
          && goods == old(goods)[id := req.data]
          && goods.Keys == old(goods).Keys
      ensures id in old(goods) && req.Delete? ==>
        resp == Response(200, NoBody) && goods == old(goods) - {id}
        && |goods| == |old(goods)| - 1
    {
      if id !in goods {
        return Response(404, NoBody);
      }
      match req
      case Get =>
        resp := Response(200, GoodData(id, goods[id]));
      case Put(data) =>
        resp := GoodUpdate(id, data);
      case Delete =>
        resp := GoodDelete(id);
    }

    /** PUT to goods_detail on a stored id: validate, check the owner, then
        replace the good with 200. */
    method GoodUpdate(id: nat, data: Good) returns (resp: Response)
      requires Valid() && id in goods
      modifies this
      ensures Valid()
      ensures physicalPeople == old(physicalPeople) && legalPeople == old(legalPeople)
      ensures nextGoodId == old(nextGoodId)
      ensures nextPhysicalId == old(nextPhysicalId) && nextLegalId == old(nextLegalId)
      ensures var errs := GoodErrors(data);
        if errs != {} then
          resp == Response(400, Errors(errs)) && unchanged(this)
        else if !CheckOwnerExists(old(physicalPeople), old(legalPeople), data.owner) then
          resp == Response(400, OwnerError(OwnerMessage)) && unchanged(this)
        else
          && resp == Response(200, GoodData(id, data))
          && goods == old(goods)[id := data]
          && goods.Keys == old(goods).Keys
    {
      var errs := GoodErrors(data);
      if errs == {} {
        if CheckOwnerExists(physicalPeople, legalPeople, data.owner) {
          GoodSaveKeepsInvariant(physicalPeople, legalPeople, goods, nextPhysicalId, nextLegalId, nextGoodId, isEmail,
                                 id, data, nextGoodId);
          UpdateKeepsKeys(goods, id, data);
          goods := goods[id := data];
          resp := Response(200, GoodData(id, data));
        } else {
          resp := Response(400, OwnerError(OwnerMessage));
        }
      } else {
        resp := Response(400, Errors(errs));
      }
    }

    /** DELETE to goods_detail on a stored id: the good is removed with 200. */
    method GoodDelete(id: nat) returns (resp: Response)
      requires Valid() && id in goods
      modifies this
      ensures Valid()
      ensures physicalPeople == old(physicalPeople) && legalPeople == old(legalPeople)
      ensures nextGoodId == old(nextGoodId)
      ensures nextPhysicalId == old(nextPhysicalId) && nextLegalId == old(nextLegalId)
      ensures resp == Response(200, NoBody)
      ensures goods == old(goods) - {id}
      ensures |goods| == |old(goods)| - 1
    {
      GoodDeleteKeepsInvariant(physicalPeople, legalPeople, goods, nextPhysicalId, nextLegalId, nextGoodId, isEmail, id);
      DeleteRemovesExactlyOne(goods, id);
      goods := goods - {id};
      resp := Response(200, NoBody);
    }
  }

  /** A session on a fresh store: create a natural person, a legal entity it
      owns, a good with an unknown owner, and the same person again. */
  method ExampleSession(isEmail: string -> bool) returns (registry: Registry, responses: seq<Response>)
    requires isEmail("fulano@email.com")
    ensures fresh(registry) && registry.Valid()
    ensures registry.physicalPeople == map[1 := Fulano()]
    ensures registry.legalPeople == map[1 := FulanoCompany()]
    ensures registry.goods == map[]
    ensures responses == [
      Response(201, PhysicalPersonData(1, Fulano())),
      Response(201, LegalPersonData(1, FulanoCompany())),
      Response(400, OwnerError(OwnerMessage)),
      Response(400, Errors({NotUnique(Cpf)}))]
  {
    registry := new Registry(isEmail);
    FulanoIsValid(isEmail);
    var created := registry.PhysicalPeopleList(Post(Fulano()));
    FulanoCompanyIsValid(isEmail);
    assert CheckOwnerExists(registry.physicalPeople, registry.legalPeople, FulanoCompany().owner) by {
      assert 1 in registry.physicalPeople && registry.physicalPeople[1].cpf == FulanoCompany().owner;
    }
    var owned := registry.LegalPeopleList(Post(FulanoCompany()));
    var house := Good("imovel", "Casa", "00000000000");
    assert GoodErrors(house) == {};
    assert !CheckOwnerExists(registry.physicalPeople, registry.legalPeople, house.owner) by {
      assert Fulano().cpf != house.owner && FulanoCompany().cnpj != house.owner;
    }
    var orphan := registry.GoodsList(Post(house));
    FulanoDuplicateErrors(registry.physicalPeople, isEmail);
    var duplicate := registry.PhysicalPeopleList(Post(Fulano()));
    responses := [created, owned, orphan, duplicate];
  }

  /** Continuing that session: deleting the natural person succeeds, the id
      then answers 404, and the legal entity it owned is still there with its
      owner unchanged. */
  method ExampleDeleteOwner(registry: Registry) returns (responses: seq<Response>)
    requires registry.Valid()
    requires registry.physicalPeople == map[1 := Fulano()]
    requires registry.legalPeople == map[1 := FulanoCompany()]
    modifies registry
    ensures registry.physicalPeople == map[]
    ensures registry.legalPeople == map[1 := FulanoCompany()]
    ensures !CheckOwnerExists(registry.physicalPeople, registry.legalPeople, FulanoCompany().owner)
    ensures responses == [
      Response(200, NoBody),
      Response(404, NoBody),
      Response(200, LegalPersonData(1, FulanoCompany()))]
  {
    var deleted := registry.PhysicalPeopleDetail(1, Delete);
    assert registry.physicalPeople == map[];
    var gone := registry.PhysicalPeopleDetail(1, Get);
    var kept := registry.LegalPeopleDetail(1, Get);
    assert FulanoCompany().owner != FulanoCompany().cnpj;
    responses := [deleted, gone, kept];
  }

  /** The example natural person passes validation on an empty table. */
  lemma FulanoIsValid(isEmail: string -> bool)
    requires isEmail("fulano@email.com")
    ensures PhysicalErrors(Fulano(), map[], None, isEmail) == {}
  {
    assert PhysicalFits(Fulano());
  }

  /** The example legal entity passes validation on an empty table. */
  lemma FulanoCompanyIsValid(isEmail: string -> bool)
    requires isEmail("fulano@email.com")
    ensures LegalErrors(FulanoCompany(), map[], None, isEmail) == {}
  {
    assert LegalFits(FulanoCompany());
  }

  /** Posting the example natural person again, once it is stored, fails
      with exactly the cpf uniqueness error. */
  lemma FulanoDuplicateErrors(people: map<nat, PhysicalPerson>, isEmail: string -> bool)
    requires isEmail("fulano@email.com")
    requires 1 in people && people[1] == Fulano()
    ensures PhysicalErrors(Fulano(), people, None, isEmail) == {NotUnique(Cpf)}
  {
    assert PhysicalFits(Fulano());
    assert !CpfFree(people, Fulano().cpf, None) by {
      assert people[1].cpf == Fulano().cpf;
    }
  }

  /** The natural person of the repository's model test. */
  function Fulano(): PhysicalPerson {
    PhysicalPerson("25845675391", "Fulando Mais Sobrenome", "12345678",
                   "fulano@email.com", "11234567890")
  }

  /** A legal entity owned by Fulano. */
  function FulanoCompany(): LegalPerson {
    LegalPerson("11222333000181", "Fulano Comercio Ltda", "Fulano", "123456789",
                "12345678", "fulano@email.com", "1133334444", "25845675391")
  }
}
