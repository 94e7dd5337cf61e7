/**
 * Product categories: CategoryServiceImpl over the categories table. The
 * service keeps category names unique by checking before every write.
 */
module Categories {
  import opened Wrappers
  import opened ResultCodes
  import Catalog

  /** A category row; name is NOT NULL, sort and status may hold null. */
  datatype Category = Category(
    id: nat,
    name: string,
    description: Option<string>,
    icon: Option<string>,
    sort: Option<int>,
    status: Option<int>)

  /** CategoryDTO; both directions copy the properties one to one. */
  datatype CategoryDto = CategoryDto(
    id: Option<nat>,
    name: Option<string>,
    description: Option<string>,
    icon: Option<string>,
    sort: Option<int>,
    status: Option<int>)

  /** The categories by id, the product table that refers to them, the next id. */
  datatype CategoryState = CategoryState(categories: map<nat, Category>, products: Catalog.Products, nextId: nat)

  function ToDto(c: Category): (d: CategoryDto)
    ensures d.id == Some(c.id) && d.name == Some(c.name) && d.sort == c.sort && d.status == c.status
  {
    CategoryDto(Some(c.id), Some(c.name), c.description, c.icon, c.sort, c.status)
  }

  /** existsByName. */
  predicate NameTaken(st: CategoryState, name: string) {
    exists id :: id in st.categories && st.categories[id].name == name
  }

  /** No two categories share a name; keys are ids below the counter. */
  predicate Valid(st: CategoryState) {
    (forall a, b :: (a in st.categories && b in st.categories && st.categories[a].name == st.categories[b].name) ==> a == b)
    && (forall id :: id in st.categories ==> st.categories[id].id == id && id < st.nextId)
  }

  /** Some product points at the category (products.category_id is a NOT NULL foreign key). */
  predicate InUse(st: CategoryState, id: nat) {
    exists pid :: pid in st.products && st.products[pid].categoryId == Some(id)
  }

  function GetCategoryById(st: CategoryState, id: nat): (r: Result<CategoryDto, Failure>)
    ensures r.Err? <==> id !in st.categories
    ensures r.Err? ==> r.error == Fail(CategoryNotExists)
    ensures r.Ok? ==> r.value == ToDto(st.categories[id])
  {
    if id !in st.categories then Err(Fail(CategoryNotExists)) else Ok(ToDto(st.categories[id]))
  }

  /**
   * The row save() writes. BeanUtils.copyProperties copies the DTO's id as
   * well, and an id naming a stored row turns the save into a merge onto
   * that row; a null or unknown id is inserted under the next identity value.
   */
  function SaveTarget(st: CategoryState, dto: CategoryDto): (id: nat)
    ensures id != st.nextId ==> dto.id == Some(id) && id in st.categories
    ensures dto.id.Some? && dto.id.value in st.categories ==> id == dto.id.value
  {
    if dto.id.Some? && dto.id.value in st.categories then dto.id.value else st.nextId
  }

  /**
   * createCategory: a taken name gives CATEGORY_EXISTS; a null name passes
   * the lookup and fails the NOT NULL column. The row is written at the
   * save target with every DTO field, and the counter only moves on an insert.
   */
  function CreateCategory(st: CategoryState, dto: CategoryDto): (r: Result<(CategoryState, CategoryDto), Failure>)
    ensures r.Ok? <==> dto.name.Some? && !NameTaken(st, dto.name.value)
    ensures dto.name.Some? && NameTaken(st, dto.name.value) ==> r == Err(Fail(CategoryExists))
    ensures dto.name.None? ==> r == Err(ConstraintViolation)
    ensures r.Ok? ==> var (st2, d) := r.value; var id := SaveTarget(st, dto);
      id in st2.categories && st2.categories == st.categories[id := st2.categories[id]]
      && st2.nextId == (if id in st.categories then st.nextId else st.nextId + 1)
      && st2.products == st.products && d == ToDto(st2.categories[id])
      && d.id == Some(id) && d.name == dto.name && d.description == dto.description && d.icon == dto.icon
      && d.sort == dto.sort && d.status == dto.status
    ensures r.Ok? && dto.id.Some? && dto.id.value in st.categories ==>
      r.value.0.categories.Keys == st.categories.Keys && r.value.0.nextId == st.nextId
    ensures r.Ok? && (dto.id.None? || dto.id.value !in st.categories) ==>
      r.value.0.categories.Keys == st.categories.Keys + {st.nextId}
  {
    if dto.name.Some? && NameTaken(st, dto.name.value) then Err(Fail(CategoryExists))
    else if dto.name.None? then Err(ConstraintViolation)
    else
      var id := SaveTarget(st, dto);
      var c := Category(id, dto.name.value, dto.description, dto.icon, dto.sort, dto.status);
      Ok((st.(categories := st.categories[id := c], nextId := if id in st.categories then st.nextId else st.nextId + 1), ToDto(c)))
  }

  /**
   * A create request that carries a stored category's id replaces that
   * category's fields instead of adding a category.
   */
  lemma CreateWithStoredIdReplaces(st: CategoryState, dto: CategoryDto)
    requires Valid(st) && dto.id.Some? && dto.id.value in st.categories
    requires dto.name.Some? && !NameTaken(st, dto.name.value)
    ensures CreateCategory(st, dto).Ok?
    ensures var st2 := CreateCategory(st, dto).value.0;
      |st2.categories| == |st.categories|
      && st2.categories[dto.id.value].name == dto.name.value
      && st2.categories[dto.id.value] != st.categories[dto.id.value]
  {
    var id := dto.id.value;
    var st2 := CreateCategory(st, dto).value.0;
    assert st2.categories.Keys == st.categories.Keys;
    assert st.categories[id].name != dto.name.value;
  }

  /** The partial copy of updateCategory: only non-null DTO fields overwrite. */
  function MergeNonNull(c: Category, dto: CategoryDto): (c2: Category)
    ensures c2.id == c.id
    ensures c2.name == dto.name.GetOr(c.name) && c2.description == (if dto.description.Some? then dto.description else c.description)
    ensures c2.icon == (if dto.icon.Some? then dto.icon else c.icon)
    ensures c2.sort == (if dto.sort.Some? then dto.sort else c.sort)
    ensures c2.status == (if dto.status.Some? then dto.status else c.status)
  {
    Category(c.id,
             if dto.name.Some? then dto.name.value else c.name,
             if dto.description.Some? then dto.description else c.description,
             if dto.icon.Some? then dto.icon else c.icon,
             if dto.sort.Some? then dto.sort else c.sort,
             if dto.status.Some? then dto.status else c.status)
  }

  /** An all-null DTO changes nothing; merging the same DTO twice is merging it once. */
  lemma MergeNonNullLaws(c: Category, dto: CategoryDto)
    ensures MergeNonNull(c, CategoryDto(None, None, None, None, None, None)) == c
    ensures MergeNonNull(MergeNonNull(c, dto), dto) == MergeNonNull(c, dto)
    ensures MergeNonNull(c, ToDto(c)) == c
  {
  }

  /**
   * updateCategory: an unknown id gives CATEGORY_NOT_EXISTS; renaming to a
   * name another category holds gives CATEGORY_EXISTS; keeping the own
   * name is allowed.
   */
  function UpdateCategory(st: CategoryState, id: nat, dto: CategoryDto): (r: Result<(CategoryState, CategoryDto), Failure>)
    ensures id !in st.categories ==> r == Err(Fail(CategoryNotExists))
    ensures id in st.categories ==> (r.Err? <==> dto.name.Some? && dto.name.value != st.categories[id].name && NameTaken(st, dto.name.value))
    ensures r.Err? && id in st.categories ==> r.error == Fail(CategoryExists)
    ensures r.Ok? ==> var (st2, d) := r.value;
      st2.categories == st.categories[id := MergeNonNull(st.categories[id], dto)]
      && st2.nextId == st.nextId && st2.products == st.products && d == ToDto(st2.categories[id])
  {
    if id !in st.categories then Err(Fail(CategoryNotExists))
    else
      var c := st.categories[id];
      if dto.name.Some? && c.name != dto.name.value && NameTaken(st, dto.name.value) then Err(Fail(CategoryExists))
      else
        var c2 := MergeNonNull(c, dto);
        Ok((st.(categories := st.categories[id := c2]), ToDto(c2)))
  }

  /** Create and update keep names unique. */
  lemma WritesKeepNamesUnique(st: CategoryState, dto: CategoryDto, id: nat)
    requires Valid(st)
    ensures CreateCategory(st, dto).Ok? ==> Valid(CreateCategory(st, dto).value.0)
    ensures UpdateCategory(st, id, dto).Ok? ==> Valid(UpdateCategory(st, id, dto).value.0)
  {
  }

  /** Renaming a category to its own current name is never a conflict. */
  lemma KeepOwnNameAllowed(st: CategoryState, id: nat, dto: CategoryDto)
    requires id in st.categories && dto.name == Some(st.categories[id].name)
    ensures UpdateCategory(st, id, dto).Ok?
  {
  }

  /**
   * deleteCategory: an unknown id gives CATEGORY_NOT_EXISTS. The service
   * does not look at products; a category still in use is refused by the
   * foreign key instead.
   */
  function DeleteCategory(st: CategoryState, id: nat): (r: Result<CategoryState, Failure>)
    ensures id !in st.categories ==> r == Err(Fail(CategoryNotExists))
    ensures r.Ok? <==> id in st.categories && !InUse(st, id)
    ensures id in st.categories && InUse(st, id) ==> r == Err(ConstraintViolation)
    ensures r.Ok? ==> r.value == st.(categories := st.categories - {id})
  {
    if id !in st.categories then Err(Fail(CategoryNotExists))
    else if InUse(st, id) then Err(ConstraintViolation)
    else Ok(st.(categories := st.categories - {id}))
  }

  /** updateCategoryStatus: only the status changes, and a null status is stored as null. */
  function UpdateCategoryStatus(st: CategoryState, id: nat, status: Option<int>): (r: Result<(CategoryState, CategoryDto), Failure>)
    ensures r.Err? <==> id !in st.categories
    ensures r.Err? ==> r.error == Fail(CategoryNotExists)
    ensures r.Ok? ==> var (st2, d) := r.value;
      st2.categories == st.categories[id := st.categories[id].(status := status)]
      && st2.nextId == st.nextId && st2.products == st.products && d == ToDto(st2.categories[id])
  {
    if id !in st.categories then Err(Fail(CategoryNotExists))
    else
      var c := st.categories[id].(status := status);
      Ok((st.(categories := st.categories[id := c]), ToDto(c)))
  }

  /**
   * A status update is the partial update whose DTO carries only that
   * status; a null status differs: it clears the column, which the partial
   * update would leave alone.
   */
  lemma StatusUpdateIsPartialUpdate(st: CategoryState, id: nat, status: Option<int>)
    ensures status.Some? ==>
      UpdateCategoryStatus(st, id, status) == UpdateCategory(st, id, CategoryDto(None, None, None, None, None, status))
    ensures status.None? && id in st.categories ==>
      UpdateCategoryStatus(st, id, status).value.1.status.None?
      && UpdateCategory(st, id, CategoryDto(None, None, None, None, None, status)).value.1.status == st.categories[id].status
  {
  }

  /** A created category can be read back, and deleted again while no product uses it. */
  lemma CreateThenGetThenDelete(st: CategoryState, dto: CategoryDto)
    requires Valid(st) && CreateCategory(st, dto).Ok?
    requires forall pid :: pid in st.products ==> st.products[pid].categoryId != Some(SaveTarget(st, dto))
    ensures var (st2, d) := CreateCategory(st, dto).value;
      GetCategoryById(st2, SaveTarget(st, dto)) == Ok(d)
      && (dto.id.None? || dto.id.value !in st.categories ==> DeleteCategory(st2, st.nextId) == Ok(st.(nextId := st.nextId + 1)))
  {
    var st2 := CreateCategory(st, dto).value.0;
    if dto.id.None? || dto.id.value !in st.categories {
      assert st2.categories - {st.nextId} == st.categories;
    }
  }
}
