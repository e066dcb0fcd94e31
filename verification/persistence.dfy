/** save_diagram.py: a diagram saved as a table of records, one per block, keyed by the
    block's id (`hash(block)`), with every relation stored as the target's id or NULL,
    and the phased load that rebuilds the blocks from those records. The SQL text, the
    connection and the reflection over the `blocks` module are abstracted: the type
    table is built from a given list of classes, and the block table is a sequence of
    records in insertion order. */
module Persistence {
  import opened Util
  import BT = BlockTypes
  import opened Graph

  datatype Result<T, E> = Ok(value: T) | Err(error: E)

  // ---------------------------------------------------------------------------------
  // The BlockTypes table

  /** A row of the BlockTypes table. */
  datatype TypeRow = TypeRow(code: int, name: string)

  /** `get_values`: the classes, in listing order, numbered from 1. */
  function TypeTable(names: seq<string>): (r: seq<TypeRow>)
    ensures |r| == |names|
    ensures forall i :: 0 <= i < |r| ==> r[i] == TypeRow(i + 1, names[i])
  {
    if names == [] then []
    else TypeTable(names[..|names| - 1]) + [TypeRow(|names|, names[|names| - 1])]
  }

  /** The names of the classes of the `blocks` module, in listing order. */
  function Names(registry: seq<BT.BlockClass>): (r: seq<string>)
    ensures |r| == |registry| && forall i :: 0 <= i < |r| ==> r[i] == registry[i].name
  {
    seq(|registry|, i requires 0 <= i < |registry| => registry[i].name)
  }

  /** `SELECT Id FROM BlockTypes WHERE Name == name`: the code of the first row with that
      name, `None` when there is none. */
  function CodeOf(types: seq<TypeRow>, name: string): (r: Option<int>)
    ensures r.None? <==> forall i :: 0 <= i < |types| ==> types[i].name != name
    ensures r.Some? ==> exists i :: 0 <= i < |types| && types[i] == TypeRow(r.value, name) &&
                                    forall j :: 0 <= j < i ==> types[j].name != name
  {
    if types == [] then None
    else if types[0].name == name then Some(types[0].code)
    else
      var r := CodeOf(types[1..], name);
      if r.Some? then
        var i :| 0 <= i < |types[1..]| && types[1..][i] == TypeRow(r.value, name) &&
                 forall j :: 0 <= j < i ==> types[1..][j].name != name;
        assert types[i + 1] == TypeRow(r.value, name);
        r
      else r
  }

  /** `SELECT Name FROM BlockTypes WHERE Id == code`: the name of the first row with that
      code, `None` when there is none. */
  function NameOf(types: seq<TypeRow>, code: int): (r: Option<string>)
    ensures r.None? <==> forall i :: 0 <= i < |types| ==> types[i].code != code
    ensures r.Some? ==> exists i :: 0 <= i < |types| && types[i] == TypeRow(code, r.value) &&
                                    forall j :: 0 <= j < i ==> types[j].code != code
  {
    if types == [] then None
    else if types[0].code == code then Some(types[0].name)
    else
      var r := NameOf(types[1..], code);
      if r.Some? then
        var i :| 0 <= i < |types[1..]| && types[1..][i] == TypeRow(code, r.value) &&
                 forall j :: 0 <= j < i ==> types[1..][j].code != code;
        assert types[i + 1] == TypeRow(code, r.value);
        r
      else r
  }

  /** `getattr(blocks, name)`: the class of that name, `None` when there is none. */
  function ClassNamed(registry: seq<BT.BlockClass>, name: string): (r: Option<BT.BlockClass>)
    ensures r.None? <==> forall i :: 0 <= i < |registry| ==> registry[i].name != name
    ensures r.Some? ==> r.value in registry && r.value.name == name
  {
    if registry == [] then None
    else if registry[0].name == name then Some(registry[0])
    else ClassNamed(registry[1..], name)
  }

  /** The class a stored type code stands for when loading. */
  function RowClass(types: seq<TypeRow>, registry: seq<BT.BlockClass>, code: int): Option<BT.BlockClass> {
    match NameOf(types, code)
    case None => None
    case Some(n) => ClassNamed(registry, n)
  }

  /** With class names unique in the module, the code saved for a class is its position
      plus one, and loading that code gives the class back. */
  lemma TypeRoundTrip(registry: seq<BT.BlockClass>, k: nat)
    requires NoDup(Names(registry)) && k < |registry|
    ensures CodeOf(TypeTable(Names(registry)), registry[k].name) == Some(k + 1)
    ensures RowClass(TypeTable(Names(registry)), registry, k + 1) == Some(registry[k])
  {
    SavedCode(Names(registry), k);
    StoredName(Names(registry), k);
    NamedClass(registry, k);
  }

  lemma SavedCode(names: seq<string>, k: nat)
    requires NoDup(names) && k < |names|
    ensures CodeOf(TypeTable(names), names[k]) == Some(k + 1)
  {
    var t := TypeTable(names);
    var c := CodeOf(t, names[k]);
    assert t[k].name == names[k];
    var i :| 0 <= i < |t| && t[i] == TypeRow(c.value, names[k]) &&
             forall j :: 0 <= j < i ==> t[j].name != names[k];
    assert names[i] == names[k];
  }

  lemma StoredName(names: seq<string>, k: nat)
    requires k < |names|
    ensures NameOf(TypeTable(names), k + 1) == Some(names[k])
  {
    var t := TypeTable(names);
    assert t[k].code == k + 1;
    var n := NameOf(t, k + 1);
    var i :| 0 <= i < |t| && t[i] == TypeRow(k + 1, n.value) &&
             forall j :: 0 <= j < i ==> t[j].code != k + 1;
    assert i == k;
  }

  lemma NamedClass(registry: seq<BT.BlockClass>, k: nat)
    requires forall i, j :: 0 <= i < j < |registry| ==> registry[i].name != registry[j].name
    requires k < |registry|
    ensures ClassNamed(registry, registry[k].name) == Some(registry[k])
  {
    var r := ClassNamed(registry, registry[k].name);
    var m :| 0 <= m < |registry| && registry[m] == r.value;
    assert registry[m].name == registry[k].name;
  }

  // ---------------------------------------------------------------------------------
  // The Blocks table

  /** A row of the Blocks table. Absent links are `None` (NULL); `lines` is the body
      list, kept for general blocks only. */
  datatype Row = Row(
    hash: Id,
    typeId: int,
    x: int,
    y: int,
    argument: string,
    child: Option<Id>,
    layerUp: Option<Id>,
    layerDown: Option<Id>,
    general: Option<Id>,
    lines: Option<seq<Id>>,
    additionalUp: Option<Id>,
    additionalDown: Option<Id>)

  /** Some row has id `x`. */
  predicate HasRow(rows: seq<Row>, x: Id) {
    exists i :: 0 <= i < |rows| && rows[i].hash == x
  }

  /** The ids of the rows, in row order. */
  function RowIds(rows: seq<Row>): (ids: seq<Id>)
    ensures |ids| == |rows| && forall i :: 0 <= i < |rows| ==> ids[i] == rows[i].hash
  {
    if rows == [] then [] else RowIds(rows[..|rows| - 1]) + [rows[|rows| - 1].hash]
  }

  /** No two rows share an id: the key of the Blocks table. */
  predicate UniqueIds(rows: seq<Row>) {
    forall i, j :: 0 <= i < j < |rows| ==> rows[i].hash != rows[j].hash
  }

  /** An additional link is stored as `hash(link)` without a test for `None`: an empty
      one is stored as `hash(None)`, which is `noneHash` here. */
  function AdditionalCell(link: Option<Id>, noneHash: Id): Id {
    if link.Some? then link.value else noneHash
  }

  /** The row saved for block `id` whose class has type code `code`. */
  ghost function EncodeBlock(h: Heap, rank: Rank, id: Id, code: int, noneHash: Id): Row
    requires Ranked(h, rank) && id in h
  {
    var b := h[id];
    Row(id, code, b.pos.0, b.pos.1, b.arg, b.child, b.layerUp, b.layerDown, b.generalBlock,
        if b.cls.isGeneral then Some(Lines(h, rank, id)) else None,
        if b.cls.hasAdditional then Some(AdditionalCell(b.additionalUp, noneHash)) else None,
        if b.cls.hasAdditional then Some(AdditionalCell(b.additionalDown, noneHash)) else None)
  }

  /** Why a save fails: a class missing from the type table (`fetchone()` gives `None`),
      or a block listed twice (the key is unique). */
  datatype SaveError = UnknownClass(name: string) | DuplicateHash(id: Id)

  /** The rows `fill_data_base` inserts for `blocks`, in order, or the error that stops
      it. */
  ghost function Encoded(h: Heap, rank: Rank, types: seq<TypeRow>, blocks: seq<Id>, noneHash: Id): (r: Result<seq<Row>, SaveError>)
    requires Ranked(h, rank) && forall i :: 0 <= i < |blocks| ==> blocks[i] in h
    ensures r.Ok? ==> |r.value| == |blocks|
  {
    if blocks == [] then Ok([])
    else
      var pre := blocks[..|blocks| - 1];
      var id := blocks[|blocks| - 1];
      match Encoded(h, rank, types, pre, noneHash)
      case Err(e) => Err(e)
      case Ok(rows) =>
        var code := CodeOf(types, h[id].cls.name);
        if code.None? then Err(UnknownClass(h[id].cls.name))
        else if HasRow(rows, id) then Err(DuplicateHash(id))
        else Ok(rows + [EncodeBlock(h, rank, id, code.value, noneHash)])
  }

  /** Saving succeeds exactly when no block is listed twice and every block's class has
      a type code. */
  lemma {:induction false} EncodedOk(h: Heap, rank: Rank, types: seq<TypeRow>, blocks: seq<Id>, noneHash: Id)
    requires Ranked(h, rank) && forall i :: 0 <= i < |blocks| ==> blocks[i] in h
    ensures Encoded(h, rank, types, blocks, noneHash).Ok? <==>
      NoDup(blocks) && forall i :: 0 <= i < |blocks| ==> CodeOf(types, h[blocks[i]].cls.name).Some?
  {
    if blocks != [] {
      var n := |blocks| - 1;
      var pre := blocks[..n];
      var id := blocks[n];
      EncodedOk(h, rank, types, pre, noneHash);
      EncodedIds(h, rank, types, pre, noneHash);
      NoDupLast(blocks);
      assert forall i :: 0 <= i < n ==> pre[i] == blocks[i];
      var p := Encoded(h, rank, types, pre, noneHash);
      if p.Ok? {
        assert HasRow(p.value, id) <==> id in pre by {
          if id in pre {
            var i :| 0 <= i < n && pre[i] == id;
            assert p.value[i].hash == id;
          }
        }
      }
    }
  }

  /** Saved rows carry the blocks' ids in order. */
  lemma {:induction false} EncodedIds(h: Heap, rank: Rank, types: seq<TypeRow>, blocks: seq<Id>, noneHash: Id)
    requires Ranked(h, rank) && forall i :: 0 <= i < |blocks| ==> blocks[i] in h
    ensures Encoded(h, rank, types, blocks, noneHash).Ok? ==>
      forall i :: 0 <= i < |blocks| ==> Encoded(h, rank, types, blocks, noneHash).value[i].hash == blocks[i]
  {
    if blocks != [] {
      var n := |blocks| - 1;
      var pre := blocks[..n];
      var id := blocks[n];
      EncodedIds(h, rank, types, pre, noneHash);
      var p := Encoded(h, rank, types, pre, noneHash);
      var code := CodeOf(types, h[id].cls.name);
      if p.Ok? && code.Some? && !HasRow(p.value, id) {
        var row := EncodeBlock(h, rank, id, code.value, noneHash);
        assert row.hash == id;
        forall i | 0 <= i < |blocks| ensures (p.value + [row])[i].hash == blocks[i] {
          if i < n {
            assert pre[i] == blocks[i];
          }
        }
      }
    }
  }

  /** Saved rows have distinct ids. */
  lemma EncodedUnique(h: Heap, rank: Rank, types: seq<TypeRow>, blocks: seq<Id>, noneHash: Id)
    requires Ranked(h, rank) && forall i :: 0 <= i < |blocks| ==> blocks[i] in h
    requires Encoded(h, rank, types, blocks, noneHash).Ok?
    ensures UniqueIds(Encoded(h, rank, types, blocks, noneHash).value)
  {
    EncodedOk(h, rank, types, blocks, noneHash);
    EncodedIds(h, rank, types, blocks, noneHash);
    var rows := Encoded(h, rank, types, blocks, noneHash).value;
    forall i, j | 0 <= i < j < |rows| ensures rows[i].hash != rows[j].hash {
      assert blocks[i] != blocks[j];
    }
  }

  /** Each saved row is the encoding of the block at the same position, under the type
      code of its class. */
  lemma {:induction false} EncodedAt(h: Heap, rank: Rank, types: seq<TypeRow>, blocks: seq<Id>, noneHash: Id)
    requires Ranked(h, rank) && forall i :: 0 <= i < |blocks| ==> blocks[i] in h
    requires Encoded(h, rank, types, blocks, noneHash).Ok?
    ensures forall i :: 0 <= i < |blocks| ==>
      var row := Encoded(h, rank, types, blocks, noneHash).value[i];
      CodeOf(types, h[blocks[i]].cls.name) == Some(row.typeId) && row == EncodeBlock(h, rank, blocks[i], row.typeId, noneHash)
  {
    if blocks != [] {
      var n := |blocks| - 1;
      var pre := blocks[..n];
      EncodedAt(h, rank, types, pre, noneHash);
      var rows := Encoded(h, rank, types, pre, noneHash).value;
      var r := Encoded(h, rank, types, blocks, noneHash).value;
      var code := CodeOf(types, h[blocks[n]].cls.name).value;
      assert r == rows + [EncodeBlock(h, rank, blocks[n], code, noneHash)];
      forall i | 0 <= i < n
        ensures CodeOf(types, h[blocks[i]].cls.name) == Some(r[i].typeId)
        ensures r[i] == EncodeBlock(h, rank, blocks[i], r[i].typeId, noneHash)
      {
        assert r[i] == rows[i] && pre[i] == blocks[i];
      }
    }
  }

  /** The database file: whether its tables exist, the BlockTypes table and the rows of
      the Blocks table in insertion order. */
  class Database {
    var created: bool
    var types: seq<TypeRow>
    var rows: seq<Row>

    /** The key of the Blocks table is unique; without tables there are no rows. */
    ghost predicate Valid()
      reads this
    {
      UniqueIds(rows) && (!created ==> types == [] && rows == [])
    }

    /** A file without tables. */
    constructor()
      ensures Valid() && !created && types == [] && rows == []
    {
      created := false;
      types := [];
      rows := [];
    }

    /** `create_data_base`: both tables, the type table filled row by row. */
    method Create(names: seq<string>)
      requires !created
      modifies this
      ensures Valid() && created && types == TypeTable(names) && rows == []
    {
      var values := TypeTable(names);
      types := [];
      for i := 0 to |values|
        invariant types == values[..i]
      {
        types := types + [values[i]];
      }
      assert values[..|values|] == values;
      created := true;
      rows := [];
    }

    /** `fill_data_base`: empties the block table (creating the tables when they are
        missing), then inserts one row per block. A failure rolls the transaction back:
        the rows are those before the call. */
    method FillDataBase(h: Heap, ghost rank: Rank, blocks: seq<Id>, names: seq<string>, noneHash: Id)
      returns (err: Option<SaveError>)
      requires Valid()
      requires Ranked(h, rank) && forall i :: 0 <= i < |blocks| ==> blocks[i] in h
      modifies this
      ensures Valid() && created
      ensures types == if old(created) then old(types) else TypeTable(names)
      ensures match Encoded(h, rank, types, blocks, noneHash)
              case Ok(saved) => err.None? && rows == saved
              case Err(e) => err == Some(e) && rows == if old(created) then old(rows) else []
    {
      if !created {
        Create(names);
      }
      var saved := rows;
      rows := [];
      for i := 0 to |blocks|
        invariant created && types == if old(created) then old(types) else TypeTable(names)
        invariant saved == if old(created) then old(rows) else []
        invariant UniqueIds(saved)
        invariant Encoded(h, rank, types, blocks[..i], noneHash) == Ok(rows)
      {
        var id := blocks[i];
        assert blocks[..i + 1][..i] == blocks[..i];
        var code := CodeOf(types, h[id].cls.name);
        if code.None? {
          rows := saved;
          err := Some(UnknownClass(h[id].cls.name));
          EncodedStops(h, rank, types, blocks, noneHash, i + 1);
          return;
        }
        if HasRow(rows, id) {
          rows := saved;
          err := Some(DuplicateHash(id));
          EncodedStops(h, rank, types, blocks, noneHash, i + 1);
          return;
        }
        var ls: Option<seq<Id>> := None;
        if h[id].cls.isGeneral {
          var body := GetLines(h, rank, id);
          ls := Some(body);
        }
        var up: Option<Id> := None;
        var down: Option<Id> := None;
        if h[id].cls.hasAdditional {
          up := Some(AdditionalCell(h[id].additionalUp, noneHash));
          down := Some(AdditionalCell(h[id].additionalDown, noneHash));
        }
        var b := h[id];
        rows := rows + [Row(id, code.value, b.pos.0, b.pos.1, b.arg, b.child, b.layerUp, b.layerDown,
                            b.generalBlock, ls, up, down)];
      }
      assert blocks[..|blocks|] == blocks;
      EncodedUnique(h, rank, types, blocks, noneHash);
      err := None;
    }

    /** `load_data_base`: creates the blocks, then places, names and links them, and
        gives back the list of new blocks in row order. A file without tables fails at
        its first query. With `AsWritten` a stored body is read back as the source does
        it; with `Corrected` an empty stored body gives an empty `_lines`. */
    method LoadDataBase(registry: seq<BT.BlockClass>, reading: Reading) returns (r: Loaded, loaded: seq<Id>)
      requires Valid()
      ensures !created ==> r == LoadFailed(NoTables)
      ensures created ==> r == Load(types, registry, rows, reading)
      ensures r.Restored? ==> loaded == RowIds(rows)
    {
      loaded := [];
      if !created {
        return LoadFailed(NoTables), loaded;
      }
      var names := ReadTypeNames(types, rows);
      if names.Err? {
        return LoadFailed(names.error), loaded;
      }
      var made;
      made, loaded := CreateBlocks(registry, rows, names.value);
      if made.Err? {
        return LoadFailed(made.error), loaded;
      }
      var hashed := made.value;
      assert forall i :: 0 <= i < |rows| ==> HasRow(rows, rows[i].hash);
      hashed := MoveBlocks(rows, hashed);
      hashed := SetArguments(rows, hashed);
      r := SetRelations(rows, hashed, reading);
    }
  }

  /** Phase one of `load_data_base`, first loop: the type name of every row. */
  method ReadTypeNames(types: seq<TypeRow>, rows: seq<Row>) returns (r: Result<seq<string>, LoadError>)
    ensures r == TypeNames(types, rows)
  {
    var names: seq<string> := [];
    for i := 0 to |rows|
      invariant TypeNames(types, rows[..i]) == Ok(names)
    {
      assert rows[..i + 1][..i] == rows[..i];
      var n := NameOf(types, rows[i].typeId);
      if n.None? {
        TypeNamesStop(types, rows, i + 1);
        return Err(UnknownType(rows[i].typeId));
      }
      names := names + [n.value];
    }
    assert rows[..|rows|] == rows;
    r := Ok(names);
  }

  /** Phase one of `load_data_base`, second loop: a new block of the named class per
      row, recorded under the stored id. */
  method CreateBlocks(registry: seq<BT.BlockClass>, rows: seq<Row>, names: seq<string>) returns (r: Result<Heap, LoadError>, order: seq<Id>)
    requires |names| == |rows|
    ensures r == Instantiated(registry, rows, names)
    ensures r.Ok? ==> order == RowIds(rows)
  {
    var hashed: Heap := map[];
    order := [];
    for i := 0 to |rows|
      invariant Instantiated(registry, rows[..i], names[..i]) == Ok(hashed)
      invariant order == RowIds(rows[..i])
    {
      assert rows[..i + 1][..i] == rows[..i] && names[..i + 1][..i] == names[..i];
      var cls := ClassNamed(registry, names[i]);
      if cls.None? {
        InstantiatedStop(registry, rows, names, i + 1);
        return Err(NoSuchClass(names[i])), order;
      }
      hashed := hashed[rows[i].hash := NewBlock(cls.value)];
      order := order + [rows[i].hash];
    }
    assert rows[..|rows|] == rows && names[..|rows|] == names;
    r := Ok(hashed);
  }

  /** Phase two of `load_data_base`: every block moved to its stored coordinates. */
  method MoveBlocks(rows: seq<Row>, m: Heap) returns (hashed: Heap)
    requires forall i :: 0 <= i < |rows| ==> rows[i].hash in m
    ensures hashed == Moved(rows, m)
  {
    hashed := m;
    for i := 0 to |rows|
      invariant hashed == Moved(rows[..i], m)
    {
      assert rows[..i + 1][..i] == rows[..i];
      var row := rows[i];
      hashed := hashed[row.hash := hashed[row.hash].(pos := (row.x, row.y))];
    }
    assert rows[..|rows|] == rows;
  }

  /** Phase three of `load_data_base`: every block given its stored argument. */
  method SetArguments(rows: seq<Row>, m: Heap) returns (hashed: Heap)
    requires forall i :: 0 <= i < |rows| ==> rows[i].hash in m
    ensures hashed == Named(rows, m)
  {
    hashed := m;
    for i := 0 to |rows|
      invariant hashed == Named(rows[..i], m)
    {
      assert rows[..i + 1][..i] == rows[..i];
      var row := rows[i];
      hashed := hashed[row.hash := hashed[row.hash].(arg := row.argument)];
    }
    assert rows[..|rows|] == rows;
  }

  /** Phase four of `load_data_base`: the relations of every block, set only where its
      class has the attribute. */
  method SetRelations(rows: seq<Row>, m: Heap, reading: Reading) returns (r: Loaded)
    requires forall i :: 0 <= i < |rows| ==> rows[i].hash in m
    ensures r == Linked(rows, m, reading)
  {
    var hashed := m;
    for i := 0 to |rows|
      invariant Linked(rows[..i], m, reading) == Restored(hashed)
    {
      assert rows[..i + 1][..i] == rows[..i];
      var row := rows[i];
      var keys := hashed.Keys;
      var b := hashed[row.hash];
      var general := b.cls.isGeneral;
      var additional := b.cls.hasAdditional;
      b := b.(child := Resolve(keys, row.child), layerUp := Resolve(keys, row.layerUp),
              layerDown := Resolve(keys, row.layerDown), generalBlock := Resolve(keys, row.general));
      if additional {
        b := b.(additionalUp := Resolve(keys, row.additionalUp),
                additionalDown := Resolve(keys, row.additionalDown));
      }
      if general {
        var body := Body(keys, row.hash, row.lines, reading);
        if body.Err? {
          LinkedStop(rows, m, reading, i + 1);
          return LoadFailed(body.error);
        }
        b := b.(lines := b.lines + body.value);
      }
      hashed := hashed[row.hash := b];
    }
    assert rows[..|rows|] == rows;
    r := Restored(hashed);
  }

  lemma {:induction false} TypeNamesStop(types: seq<TypeRow>, rows: seq<Row>, n: nat)
    requires n <= |rows| && TypeNames(types, rows[..n]).Err?
    ensures TypeNames(types, rows) == TypeNames(types, rows[..n])
    decreases |rows| - n
  {
    if n < |rows| {
      assert rows[..n + 1][..n] == rows[..n];
      TypeNamesStop(types, rows, n + 1);
    } else {
      assert rows[..n] == rows;
    }
  }

  lemma {:induction false} InstantiatedStop(registry: seq<BT.BlockClass>, rows: seq<Row>, names: seq<string>, n: nat)
    requires |names| == |rows| && n <= |rows| && Instantiated(registry, rows[..n], names[..n]).Err?
    ensures Instantiated(registry, rows, names) == Instantiated(registry, rows[..n], names[..n])
    decreases |rows| - n
  {
    if n < |rows| {
      assert rows[..n + 1][..n] == rows[..n] && names[..n + 1][..n] == names[..n];
      InstantiatedStop(registry, rows, names, n + 1);
    } else {
      assert rows[..n] == rows && names[..n] == names;
    }
  }

  lemma {:induction false} LinkedStop(rows: seq<Row>, m: Heap, reading: Reading, n: nat)
    requires forall i :: 0 <= i < |rows| ==> rows[i].hash in m
    requires n <= |rows| && Linked(rows[..n], m, reading).LoadFailed?
    ensures Linked(rows, m, reading) == Linked(rows[..n], m, reading)
    decreases |rows| - n
  {
    if n < |rows| {
      assert rows[..n + 1][..n] == rows[..n];
      LinkedStop(rows, m, reading, n + 1);
    } else {
      assert rows[..n] == rows;
    }
  }

  /** Once a prefix fails, the whole save fails with the same error. */
  lemma {:induction false} EncodedStops(h: Heap, rank: Rank, types: seq<TypeRow>, blocks: seq<Id>, noneHash: Id, n: nat)
    requires Ranked(h, rank) && forall i :: 0 <= i < |blocks| ==> blocks[i] in h
    requires n <= |blocks| && Encoded(h, rank, types, blocks[..n], noneHash).Err?
    ensures Encoded(h, rank, types, blocks, noneHash) == Encoded(h, rank, types, blocks[..n], noneHash)
    decreases |blocks| - n
  {
    if n < |blocks| {
      assert blocks[..n + 1][..n] == blocks[..n];
      EncodedStops(h, rank, types, blocks, noneHash, n + 1);
    } else {
      assert blocks[..n] == blocks;
    }
  }

  // ---------------------------------------------------------------------------------
  // Loading

  /** Why a load fails: a type code with no row in the type table (`fetchone()` gives
      `None`), a type name that is no class of the module (`getattr` fails), a general
      block whose body cell is NULL (`extend(None)`), a body cell `"[]"` (`int('')`), or a
      body entry with no row (`KeyError`). */
  datatype LoadError =
    | NoTables
    | UnknownType(code: int)
    | NoSuchClass(name: string)
    | MissingBody(id: Id)
    | EmptyBody(id: Id)
    | MissingLine(id: Id)

  datatype Loaded = Restored(heap: Heap) | LoadFailed(error: LoadError)

  /** How a stored body is read back: as `load_data_base` does it, or with an empty
      list read as an empty body. */
  datatype Reading = AsWritten | Corrected

  /** The first loop of phase one: the type name of every row, in row order, or the
      first code the type table does not hold. */
  function TypeNames(types: seq<TypeRow>, rows: seq<Row>): (r: Result<seq<string>, LoadError>)
    ensures r.Ok? <==> forall i :: 0 <= i < |rows| ==> NameOf(types, rows[i].typeId).Some?
    ensures r.Ok? ==> (|r.value| == |rows| &&
      forall i :: 0 <= i < |rows| ==> NameOf(types, rows[i].typeId) == Some(r.value[i]))
  {
    if rows == [] then Ok([])
    else
      var row := rows[|rows| - 1];
      match TypeNames(types, rows[..|rows| - 1])
      case Err(e) => Err(e)
      case Ok(ns) =>
        match NameOf(types, row.typeId)
        case None => Err(UnknownType(row.typeId))
        case Some(n) => Ok(ns + [n])
  }

  /** The second loop of phase one: a new block of the named class per row, in a map
      from the stored id, or the first name that is no class. */
  function Instantiated(registry: seq<BT.BlockClass>, rows: seq<Row>, names: seq<string>): (r: Result<Heap, LoadError>)
    requires |names| == |rows|
    ensures r.Ok? <==> forall i :: 0 <= i < |rows| ==> ClassNamed(registry, names[i]).Some?
    ensures r.Ok? ==> forall x :: x in r.value <==> HasRow(rows, x)
  {
    if rows == [] then Ok(map[])
    else
      var row := rows[|rows| - 1];
      var n := names[|rows| - 1];
      match Instantiated(registry, rows[..|rows| - 1], names[..|rows| - 1])
      case Err(e) => Err(e)
      case Ok(m) =>
        assert forall x :: HasRow(rows, x) <==> HasRow(rows[..|rows| - 1], x) || x == row.hash by {
          forall x | HasRow(rows, x) && x != row.hash ensures HasRow(rows[..|rows| - 1], x) {
            var i :| 0 <= i < |rows| && rows[i].hash == x;
            assert rows[..|rows| - 1][i] == rows[i];
          }
          forall x | HasRow(rows[..|rows| - 1], x) ensures HasRow(rows, x) {
            var i :| 0 <= i < |rows| - 1 && rows[..|rows| - 1][i].hash == x;
            assert rows[i].hash == x;
          }
          assert rows[|rows| - 1].hash == row.hash;
        }
        match ClassNamed(registry, n)
        case None => Err(NoSuchClass(n))
        case Some(c) => Ok(m[row.hash := NewBlock(c)])
  }

  /** Phase two: every block moved to its stored position. */
  function Moved(rows: seq<Row>, m: Heap): (r: Heap)
    requires forall i :: 0 <= i < |rows| ==> rows[i].hash in m
    ensures r.Keys == m.Keys
  {
    if rows == [] then m
    else
      var row := rows[|rows| - 1];
      var m' := Moved(rows[..|rows| - 1], m);
      m'[row.hash := m'[row.hash].(pos := (row.x, row.y))]
  }

  /** Phase three: every block given its stored argument. */
  function Named(rows: seq<Row>, m: Heap): (r: Heap)
    requires forall i :: 0 <= i < |rows| ==> rows[i].hash in m
    ensures r.Keys == m.Keys
  {
    if rows == [] then m
    else
      var row := rows[|rows| - 1];
      var m' := Named(rows[..|rows| - 1], m);
      m'[row.hash := m'[row.hash].(arg := row.argument)]
  }

  /** Phases one to three: the blocks, placed and named, before any relation is set. */
  function Prepared(types: seq<TypeRow>, registry: seq<BT.BlockClass>, rows: seq<Row>): (r: Result<Heap, LoadError>)
    ensures r.Ok? ==> forall x :: x in r.value <==> HasRow(rows, x)
  {
    match TypeNames(types, rows)
    case Err(e) => Err(e)
    case Ok(ns) =>
      match Instantiated(registry, rows, ns)
      case Err(e) => Err(e)
      case Ok(m) =>
        assert forall i :: 0 <= i < |rows| ==> HasRow(rows, rows[i].hash);
        Ok(Named(rows, Moved(rows, m)))
  }

  /** `hashed_blocks.get(value, None)` for a stored id; NULL stays `None`. */
  function Resolve(keys: set<Id>, cell: Option<Id>): (r: Option<Id>)
    ensures r.Some? ==> r == cell && r.value in keys
    ensures cell.Some? && cell.value in keys ==> r == cell
  {
    if cell.Some? && cell.value in keys then cell else None
  }

  /** The first entry of `ls` with no row. */
  function FirstMissing(keys: set<Id>, ls: seq<Id>): (r: Option<Id>)
    ensures r.None? <==> forall i :: 0 <= i < |ls| ==> ls[i] in keys
    ensures r.Some? ==> r.value in ls && r.value !in keys
  {
    if ls == [] then None
    else if ls[0] !in keys then Some(ls[0])
    else FirstMissing(keys, ls[1..])
  }

  /** The body read back from a general block's cell: `[hashed_blocks[int(i)] for i in
      cell[1:-1].split(',')]`. As written, the empty list `"[]"` splits into `['']` and
      fails. */
  function Body(keys: set<Id>, id: Id, cell: Option<seq<Id>>, reading: Reading): Result<seq<Id>, LoadError> {
    match cell
    case None => Err(MissingBody(id))
    case Some(ls) =>
      if ls == [] && reading == AsWritten then Err(EmptyBody(id))
      else
        match FirstMissing(keys, ls)
        case Some(x) => Err(MissingLine(x))
        case None => Ok(ls)
  }

  /** Phase four for one row: the relations the block's class has, each stored id turned
      back into a block of the map; the body extends the (empty) `_lines`. */
  function Relinked(m: Heap, row: Row, reading: Reading): Result<Block, LoadError>
    requires row.hash in m
  {
    var keys := m.Keys;
    var b := m[row.hash];
    var b' := b.(child := Resolve(keys, row.child), layerUp := Resolve(keys, row.layerUp),
                 layerDown := Resolve(keys, row.layerDown), generalBlock := Resolve(keys, row.general));
    var b'' := if b.cls.hasAdditional
               then b'.(additionalUp := Resolve(keys, row.additionalUp), additionalDown := Resolve(keys, row.additionalDown))
               else b';
    if b.cls.isGeneral then
      match Body(keys, row.hash, row.lines, reading)
      case Err(e) => Err(e)
      case Ok(ls) => Ok(b''.(lines := b''.lines + ls))
    else Ok(b'')
  }

  /** Phase four: the relations of every row, in row order; the first failure ends the
      load. */
  function Linked(rows: seq<Row>, m: Heap, reading: Reading): (r: Loaded)
    requires forall i :: 0 <= i < |rows| ==> rows[i].hash in m
    ensures r.Restored? ==> r.heap.Keys == m.Keys
  {
    if rows == [] then Restored(m)
    else
      var row := rows[|rows| - 1];
      match Linked(rows[..|rows| - 1], m, reading)
      case LoadFailed(e) => LoadFailed(e)
      case Restored(m') =>
        match Relinked(m', row, reading)
        case Err(e) => LoadFailed(e)
        case Ok(b) => Restored(m'[row.hash := b])
  }

  /** `load_data_base`: the blocks first, then their relations. */
  function Load(types: seq<TypeRow>, registry: seq<BT.BlockClass>, rows: seq<Row>, reading: Reading): Loaded {
    match Prepared(types, registry, rows)
    case Err(e) => LoadFailed(e)
    case Ok(m) =>
      assert forall i :: 0 <= i < |rows| ==> HasRow(rows, rows[i].hash);
      Linked(rows, m, reading)
  }

  // ---------------------------------------------------------------------------------
  // What a load gives back

  /** A prefix of a table with distinct ids has distinct ids. */
  lemma UniquePrefix(rows: seq<Row>, n: nat)
    requires UniqueIds(rows) && n <= |rows|
    ensures UniqueIds(rows[..n])
  {
    forall i, j | 0 <= i < j < n ensures rows[..n][i].hash != rows[..n][j].hash {
      assert rows[i].hash != rows[j].hash;
    }
  }

  /** The ids of a table are those of all rows but the last, and the last one, which
      is new. */
  lemma RowsStep(rows: seq<Row>)
    requires UniqueIds(rows) && rows != []
    ensures var n := |rows| - 1;
      && (forall i :: 0 <= i < n ==> rows[i].hash != rows[n].hash && rows[..n][i] == rows[i])
      && !HasRow(rows[..n], rows[n].hash)
      && forall x :: HasRow(rows, x) <==> HasRow(rows[..n], x) || x == rows[n].hash
  {
    var n := |rows| - 1;
    forall x | HasRow(rows, x) && x != rows[n].hash ensures HasRow(rows[..n], x) {
      var i :| 0 <= i < |rows| && rows[i].hash == x;
      assert rows[..n][i] == rows[i];
    }
    forall x | HasRow(rows[..n], x) ensures HasRow(rows, x) {
      var i :| 0 <= i < n && rows[..n][i].hash == x;
      assert rows[i].hash == x;
    }
  }

  lemma {:induction false} InstantiatedAt(registry: seq<BT.BlockClass>, rows: seq<Row>, names: seq<string>)
    requires |names| == |rows| && UniqueIds(rows)
    requires Instantiated(registry, rows, names).Ok?
    ensures forall i :: 0 <= i < |rows| ==>
      Instantiated(registry, rows, names).value[rows[i].hash] == NewBlock(ClassNamed(registry, names[i]).value)
  {
    if rows != [] {
      var n := |rows| - 1;
      UniquePrefix(rows, n);
      InstantiatedAt(registry, rows[..n], names[..n]);
      RowsStep(rows);
    }
  }

  lemma {:induction false} MovedAt(rows: seq<Row>, m: Heap)
    requires forall i :: 0 <= i < |rows| ==> rows[i].hash in m
    requires UniqueIds(rows)
    ensures forall i :: 0 <= i < |rows| ==> Moved(rows, m)[rows[i].hash] == m[rows[i].hash].(pos := (rows[i].x, rows[i].y))
    ensures forall x :: x in m && !HasRow(rows, x) ==> Moved(rows, m)[x] == m[x]
  {
    if rows != [] {
      var n := |rows| - 1;
      UniquePrefix(rows, n);
      MovedAt(rows[..n], m);
      RowsStep(rows);
    }
  }

  lemma {:induction false} NamedAt(rows: seq<Row>, m: Heap)
    requires forall i :: 0 <= i < |rows| ==> rows[i].hash in m
    requires UniqueIds(rows)
    ensures forall i :: 0 <= i < |rows| ==> Named(rows, m)[rows[i].hash] == m[rows[i].hash].(arg := rows[i].argument)
    ensures forall x :: x in m && !HasRow(rows, x) ==> Named(rows, m)[x] == m[x]
  {
    if rows != [] {
      var n := |rows| - 1;
      UniquePrefix(rows, n);
      NamedAt(rows[..n], m);
      RowsStep(rows);
    }
  }

  /** Phase four succeeds exactly when every row's relations can be read back. */
  lemma {:induction false} LinkedOk(rows: seq<Row>, m: Heap, reading: Reading)
    requires forall i :: 0 <= i < |rows| ==> rows[i].hash in m
    requires UniqueIds(rows)
    ensures Linked(rows, m, reading).Restored? <==> forall i :: 0 <= i < |rows| ==> Relinked(m, rows[i], reading).Ok?
  {
    if rows != [] {
      var n := |rows| - 1;
      var row := rows[n];
      UniquePrefix(rows, n);
      LinkedOk(rows[..n], m, reading);
      LinkedAt(rows[..n], m, reading);
      RowsStep(rows);
      var pre := Linked(rows[..n], m, reading);
      if pre.Restored? {
        RelinkedFrame(pre.heap, m, row, reading);
      } else {
        var i :| 0 <= i < n && !Relinked(m, rows[..n][i], reading).Ok?;
        assert rows[..n][i] == rows[i];
      }
    }
  }

  /** After a successful phase four each row's block carries its read-back relations
      and every other block is untouched. */
  lemma {:induction false} LinkedAt(rows: seq<Row>, m: Heap, reading: Reading)
    requires forall i :: 0 <= i < |rows| ==> rows[i].hash in m
    requires UniqueIds(rows)
    ensures Linked(rows, m, reading).Restored? ==>
      (forall i :: 0 <= i < |rows| ==> Relinked(m, rows[i], reading) == Ok(Linked(rows, m, reading).heap[rows[i].hash])) &&
      (forall x :: x in m && !HasRow(rows, x) ==> Linked(rows, m, reading).heap[x] == m[x])
  {
    if rows != [] {
      var n := |rows| - 1;
      var row := rows[n];
      UniquePrefix(rows, n);
      LinkedAt(rows[..n], m, reading);
      RowsStep(rows);
      var pre := Linked(rows[..n], m, reading);
      if pre.Restored? {
        RelinkedFrame(pre.heap, m, row, reading);
        var r := Relinked(m, row, reading);
        if r.Ok? {
          var h := pre.heap[row.hash := r.value];
          forall i | 0 <= i < |rows| ensures Relinked(m, rows[i], reading) == Ok(h[rows[i].hash]) {
            if i < n {
              assert rows[..n][i] == rows[i];
            }
          }
        }
      }
    }
  }

  /** A row reads back the same on any map with the same keys and the same block for it. */
  lemma RelinkedFrame(m1: Heap, m2: Heap, row: Row, reading: Reading)
    requires row.hash in m1 && m1.Keys == m2.Keys && m1[row.hash] == m2[row.hash]
    ensures Relinked(m1, row, reading) == Relinked(m2, row, reading)
  {
  }

  /** A failure of phase four is the failure of some row. */
  lemma {:induction false} LinkedFails(rows: seq<Row>, m: Heap, reading: Reading)
    requires forall i :: 0 <= i < |rows| ==> rows[i].hash in m
    requires UniqueIds(rows)
    ensures Linked(rows, m, reading).LoadFailed? ==>
      exists i :: 0 <= i < |rows| && Relinked(m, rows[i], reading) == Err(Linked(rows, m, reading).error)
  {
    if rows != [] {
      var n := |rows| - 1;
      var row := rows[n];
      UniquePrefix(rows, n);
      LinkedAt(rows[..n], m, reading);
      LinkedFails(rows[..n], m, reading);
      RowsStep(rows);
      var pre := Linked(rows[..n], m, reading);
      if pre.Restored? {
        assert pre.heap.Keys == m.Keys && pre.heap[row.hash] == m[row.hash];
        RelinkedFrame(pre.heap, m, row, reading);
      } else {
        var i :| 0 <= i < n && Relinked(m, rows[..n][i], reading) == Err(pre.error);
        assert rows[..n][i] == rows[i];
      }
    }
  }

  /** Phases one to three succeed exactly when every type code names a class; each row's
      block is then a new block of that class, at the stored position, with the stored
      argument, and no relation set. */
  lemma PreparedAt(types: seq<TypeRow>, registry: seq<BT.BlockClass>, rows: seq<Row>)
    requires UniqueIds(rows)
    ensures Prepared(types, registry, rows).Ok? <==>
      forall i :: 0 <= i < |rows| ==> RowClass(types, registry, rows[i].typeId).Some?
    ensures Prepared(types, registry, rows).Ok? ==> forall i :: 0 <= i < |rows| ==>
      Prepared(types, registry, rows).value[rows[i].hash] ==
        NewBlock(RowClass(types, registry, rows[i].typeId).value).(pos := (rows[i].x, rows[i].y), arg := rows[i].argument)
  {
    var ns := TypeNames(types, rows);
    if ns.Ok? {
      var m := Instantiated(registry, rows, ns.value);
      if m.Ok? {
        assert forall i :: 0 <= i < |rows| ==> HasRow(rows, rows[i].hash);
        InstantiatedAt(registry, rows, ns.value);
        MovedAt(rows, m.value);
        NamedAt(rows, Moved(rows, m.value));
      } else {
        var i :| 0 <= i < |rows| && ClassNamed(registry, ns.value[i]).None?;
        assert RowClass(types, registry, rows[i].typeId).None?;
      }
    } else {
      var i :| 0 <= i < |rows| && NameOf(types, rows[i].typeId).None?;
      assert RowClass(types, registry, rows[i].typeId).None?;
    }
  }

  /** A load succeeds exactly when phases one to three do and every row's relations read
      back; each row's block then has those relations, and a failure after phase three is
      some row's failure. */
  lemma LoadAt(types: seq<TypeRow>, registry: seq<BT.BlockClass>, rows: seq<Row>, reading: Reading)
    requires UniqueIds(rows)
    ensures Load(types, registry, rows, reading).Restored? <==>
      Prepared(types, registry, rows).Ok? &&
      forall i :: 0 <= i < |rows| ==> Relinked(Prepared(types, registry, rows).value, rows[i], reading).Ok?
    ensures Load(types, registry, rows, reading).Restored? ==>
      (forall x :: x in Load(types, registry, rows, reading).heap <==> HasRow(rows, x)) &&
      (forall i :: 0 <= i < |rows| ==>
        Load(types, registry, rows, reading).heap[rows[i].hash] == Relinked(Prepared(types, registry, rows).value, rows[i], reading).value)
    ensures Load(types, registry, rows, reading).LoadFailed? && Prepared(types, registry, rows).Ok? ==>
      exists i :: 0 <= i < |rows| &&
        Relinked(Prepared(types, registry, rows).value, rows[i], reading) == Err(Load(types, registry, rows, reading).error)
  {
    var p := Prepared(types, registry, rows);
    if p.Ok? {
      assert forall i :: 0 <= i < |rows| ==> HasRow(rows, rows[i].hash);
      LinkedOk(rows, p.value, reading);
      LinkedAt(rows, p.value, reading);
      LinkedFails(rows, p.value, reading);
    }
  }

  /** One row's relations read back onto a freshly prepared block: each scalar relation
      is the stored id when it has a row and `None` otherwise, and a general block's
      body is exactly the stored list, every entry of which has a row. */
  lemma RelinkedFields(m: Heap, row: Row, reading: Reading)
    requires row.hash in m && m[row.hash].lines == []
    requires Relinked(m, row, reading).Ok?
    ensures var b := Relinked(m, row, reading).value;
      && b.cls == m[row.hash].cls && b.pos == m[row.hash].pos && b.arg == m[row.hash].arg
      && b.child == Resolve(m.Keys, row.child) && b.layerUp == Resolve(m.Keys, row.layerUp)
      && b.layerDown == Resolve(m.Keys, row.layerDown) && b.generalBlock == Resolve(m.Keys, row.general)
      && (b.cls.isGeneral ==> row.lines == Some(b.lines) && forall j :: 0 <= j < |b.lines| ==> b.lines[j] in m)
  {
    if m[row.hash].cls.isGeneral {
      var ls := row.lines.value;
      assert FirstMissing(m.Keys, ls).None?;
      assert [] + ls == ls;
    }
  }

  /** What a successful load gives each row's block: its stored class, position and
      argument, every scalar relation as stored when the id has a row and `None`
      otherwise, and for a general block exactly the stored body, every entry of which
      has a row. */
  lemma LoadedBlock(types: seq<TypeRow>, registry: seq<BT.BlockClass>, rows: seq<Row>, reading: Reading, i: nat)
    requires UniqueIds(rows) && i < |rows|
    requires Load(types, registry, rows, reading).Restored?
    ensures var row := rows[i]; var b := Load(types, registry, rows, reading).heap[row.hash];
      && Some(b.cls) == RowClass(types, registry, row.typeId)
      && b.pos == (row.x, row.y) && b.arg == row.argument
      && b.child == (if row.child.Some? && HasRow(rows, row.child.value) then row.child else None)
      && b.layerUp == (if row.layerUp.Some? && HasRow(rows, row.layerUp.value) then row.layerUp else None)
      && b.layerDown == (if row.layerDown.Some? && HasRow(rows, row.layerDown.value) then row.layerDown else None)
      && b.generalBlock == (if row.general.Some? && HasRow(rows, row.general.value) then row.general else None)
      && (b.cls.isGeneral ==> row.lines == Some(b.lines) && forall j :: 0 <= j < |b.lines| ==> HasRow(rows, b.lines[j]))
  {
    LoadAt(types, registry, rows, reading);
    PreparedAt(types, registry, rows);
    var p := Prepared(types, registry, rows).value;
    var row := rows[i];
    RelinkedFields(p, row, reading);
  }

  /** A body entry with no row makes the whole load fail, where a scalar relation would
      just have become `None`. */
  lemma MissingLineFails(types: seq<TypeRow>, registry: seq<BT.BlockClass>, rows: seq<Row>, reading: Reading, i: nat, j: nat)
    requires UniqueIds(rows) && i < |rows|
    requires RowClass(types, registry, rows[i].typeId).Some? && RowClass(types, registry, rows[i].typeId).value.isGeneral
    requires rows[i].lines.Some? && j < |rows[i].lines.value| && !HasRow(rows, rows[i].lines.value[j])
    ensures Load(types, registry, rows, reading).LoadFailed?
  {
    if Load(types, registry, rows, reading).Restored? {
      LoadedBlock(types, registry, rows, reading, i);
      assert false;
    }
  }

  // ---------------------------------------------------------------------------------
  // Saving and loading again

  /** The conditions under which a saved diagram can be read back: a well-formed
      diagram, every block listed once, class names unique in the module with every
      block's class among them, and no block whose id is `hash(None)`. */
  ghost predicate Saveable(h: Heap, rank: Rank, registry: seq<BT.BlockClass>, blocks: seq<Id>, noneHash: Id) {
    && Ranked(h, rank) && Shaped(h)
    && NoDup(blocks) && (forall i :: 0 <= i < |blocks| ==> blocks[i] in h) && (forall x :: x in h ==> x in blocks)
    && NoDup(Names(registry)) && (forall x :: x in h ==> h[x].cls in registry)
    && noneHash !in h
  }

  /** The diagram a load gives back: every block as it was, except that its `_lines`
      now hold its flattened `lines`. */
  ghost function Settled(h: Heap, rank: Rank): Heap
    requires Ranked(h, rank)
  {
    map x | x in h :: h[x].(lines := Lines(h, rank, x))
  }

  /** The row saved for a block, read back onto a freshly prepared block of the same
      class, position and argument, gives the block back with its `lines` in `_lines`,
      unless the as-written load meets an empty body. */
  lemma RowReadBack(h: Heap, rank: Rank, m: Heap, x: Id, code: int, noneHash: Id, reading: Reading)
    requires Ranked(h, rank) && Shaped(h) && x in h && noneHash !in h
    requires m.Keys == h.Keys && m[x] == NewBlock(h[x].cls).(pos := h[x].pos, arg := h[x].arg)
    ensures Relinked(m, EncodeBlock(h, rank, x, code, noneHash), reading) ==
      if reading == AsWritten && h[x].cls.isGeneral && Lines(h, rank, x) == [] then Err(EmptyBody(x))
      else Ok(h[x].(lines := Lines(h, rank, x)))
  {
    assert RankedAt(h, rank, x) && ShapedAt(h, x);
    assert Next(h[x], LayerUp) == h[x].layerUp && Next(h[x], LayerDown) == h[x].layerDown;
    assert Next(h[x], GeneralUp) == h[x].generalBlock;
    assert Next(h[x], AdditionalUp) == h[x].additionalUp && Next(h[x], AdditionalDown) == h[x].additionalDown;
    var ls := Lines(h, rank, x);
    if h[x].cls.isGeneral {
      assert FirstMissing(m.Keys, ls).None?;
      assert [] + ls == ls;
    } else {
      assert ls == [];
    }
  }

  /** Saving a saveable diagram succeeds: one row per block, in order, with distinct ids
      that are exactly the diagram's blocks, and each row's type code names its block's
      class. */
  lemma SavedRows(h: Heap, rank: Rank, registry: seq<BT.BlockClass>, blocks: seq<Id>, noneHash: Id)
    requires Saveable(h, rank, registry, blocks, noneHash)
    ensures var types := TypeTable(Names(registry));
      var saved := Encoded(h, rank, types, blocks, noneHash);
      && saved.Ok? && |saved.value| == |blocks| && UniqueIds(saved.value)
      && (forall x :: HasRow(saved.value, x) <==> x in h)
      && forall i :: 0 <= i < |blocks| ==>
           saved.value[i] == EncodeBlock(h, rank, blocks[i], saved.value[i].typeId, noneHash) &&
           RowClass(types, registry, saved.value[i].typeId) == Some(h[blocks[i]].cls)
  {
    var types := TypeTable(Names(registry));
    ClassesCoded(h, registry, blocks);
    EncodedOk(h, rank, types, blocks, noneHash);
    EncodedIds(h, rank, types, blocks, noneHash);
    EncodedAt(h, rank, types, blocks, noneHash);
    EncodedUnique(h, rank, types, blocks, noneHash);
    var rows := Encoded(h, rank, types, blocks, noneHash).value;
    forall i | 0 <= i < |blocks| ensures RowClass(types, registry, rows[i].typeId) == Some(h[blocks[i]].cls) {
      assert CodeOf(types, h[blocks[i]].cls.name) == Some(rows[i].typeId);
    }
    forall x | x in h ensures HasRow(rows, x) {
      var i :| 0 <= i < |blocks| && blocks[i] == x;
      assert rows[i].hash == x;
    }
  }

  /** Every listed block's class has a type code, and loading that code gives the class
      back. */
  lemma ClassesCoded(h: Heap, registry: seq<BT.BlockClass>, blocks: seq<Id>)
    requires NoDup(Names(registry)) && forall x :: x in h ==> h[x].cls in registry
    requires forall i :: 0 <= i < |blocks| ==> blocks[i] in h
    ensures forall i :: 0 <= i < |blocks| ==>
      var code := CodeOf(TypeTable(Names(registry)), h[blocks[i]].cls.name);
      code.Some? && RowClass(TypeTable(Names(registry)), registry, code.value) == Some(h[blocks[i]].cls)
  {
    forall i | 0 <= i < |blocks|
      ensures CodeOf(TypeTable(Names(registry)), h[blocks[i]].cls.name).Some?
      ensures RowClass(TypeTable(Names(registry)), registry, CodeOf(TypeTable(Names(registry)), h[blocks[i]].cls.name).value) == Some(h[blocks[i]].cls)
    {
      var x := blocks[i];
      assert h[x].cls in registry;
      var k :| 0 <= k < |registry| && registry[k] == h[x].cls;
      TypeRoundTrip(registry, k);
    }
  }

  /** Every saved row of a saveable diagram reads back as its block of `Settled`, unless
      the as-written load meets an empty body. */
  lemma ReadBack(h: Heap, rank: Rank, registry: seq<BT.BlockClass>, blocks: seq<Id>, noneHash: Id, reading: Reading)
    requires Saveable(h, rank, registry, blocks, noneHash)
    ensures var types := TypeTable(Names(registry));
      var saved := Encoded(h, rank, types, blocks, noneHash);
      && saved.Ok? && UniqueIds(saved.value) && |saved.value| == |blocks|
      && (forall x :: HasRow(saved.value, x) <==> x in h)
      && Prepared(types, registry, saved.value).Ok?
      && forall i :: 0 <= i < |blocks| ==>
           && saved.value[i].hash == blocks[i]
           && Relinked(Prepared(types, registry, saved.value).value, saved.value[i], reading) ==
                if reading == AsWritten && h[blocks[i]].cls.isGeneral && Lines(h, rank, blocks[i]) == []
                then Err(EmptyBody(blocks[i])) else Ok(Settled(h, rank)[blocks[i]])
  {
    var types := TypeTable(Names(registry));
    SavedRows(h, rank, registry, blocks, noneHash);
    var rows := Encoded(h, rank, types, blocks, noneHash).value;
    PreparedAt(types, registry, rows);
    var m := Prepared(types, registry, rows).value;
    forall x ensures x in m <==> x in h {
      assert x in m <==> HasRow(rows, x);
    }
    assert m.Keys == h.Keys;
    forall i | 0 <= i < |blocks|
      ensures Relinked(m, rows[i], reading) ==
        if reading == AsWritten && h[blocks[i]].cls.isGeneral && Lines(h, rank, blocks[i]) == []
        then Err(EmptyBody(blocks[i])) else Ok(Settled(h, rank)[blocks[i]])
    {
      var x := blocks[i];
      var row := rows[i];
      assert row == EncodeBlock(h, rank, x, row.typeId, noneHash);
      assert (row.x, row.y) == h[x].pos;
      assert m[x] == NewBlock(h[x].cls).(pos := h[x].pos, arg := h[x].arg);
      RowReadBack(h, rank, m, x, row.typeId, noneHash, reading);
    }
  }

  /** A load restores exactly the heap `s` when the ids of the rows are the keys of
      `s` and every row reads back as its block of `s`. */
  lemma LoadedAs(types: seq<TypeRow>, registry: seq<BT.BlockClass>, rows: seq<Row>, reading: Reading, s: Heap)
    requires UniqueIds(rows) && Prepared(types, registry, rows).Ok?
    requires forall x :: HasRow(rows, x) <==> x in s
    requires forall i :: 0 <= i < |rows| ==>
      rows[i].hash in s && Relinked(Prepared(types, registry, rows).value, rows[i], reading) == Ok(s[rows[i].hash])
    ensures Load(types, registry, rows, reading) == Restored(s)
  {
    LoadAt(types, registry, rows, reading);
    var r := Load(types, registry, rows, reading);
    forall x | x in s ensures x in r.heap && r.heap[x] == s[x] {
      var i :| 0 <= i < |rows| && rows[i].hash == x;
    }
    forall x ensures x in r.heap <==> x in s {
      assert x in r.heap <==> HasRow(rows, x);
    }
    assert r.heap == s;
  }

  /** The load of a save, under a reading that does not stop at an empty body. */
  lemma RestoredBy(h: Heap, rank: Rank, registry: seq<BT.BlockClass>, blocks: seq<Id>, noneHash: Id, reading: Reading)
    requires Saveable(h, rank, registry, blocks, noneHash)
    requires reading == AsWritten ==> forall x :: x in h && h[x].cls.isGeneral ==> Lines(h, rank, x) != []
    ensures Encoded(h, rank, TypeTable(Names(registry)), blocks, noneHash).Ok?
    ensures Load(TypeTable(Names(registry)), registry, Encoded(h, rank, TypeTable(Names(registry)), blocks, noneHash).value, reading)
            == Restored(Settled(h, rank))
  {
    var types := TypeTable(Names(registry));
    ReadBack(h, rank, registry, blocks, noneHash, reading);
    var rows := Encoded(h, rank, types, blocks, noneHash).value;
    var m := Prepared(types, registry, rows).value;
    var s := Settled(h, rank);
    forall i | 0 <= i < |rows| ensures rows[i].hash in s && Relinked(m, rows[i], reading) == Ok(s[rows[i].hash]) {
      var x := blocks[i];
      assert x in h;
      assert !(reading == AsWritten && h[x].cls.isGeneral && Lines(h, rank, x) == []);
    }
    LoadedAs(types, registry, rows, reading, s);
  }

  /** Saving a well-formed diagram and loading it gives the diagram back, with every
      body flattened into `_lines`, as long as no general block has an empty body. */
  lemma RoundTrip(h: Heap, rank: Rank, registry: seq<BT.BlockClass>, blocks: seq<Id>, noneHash: Id)
    requires Saveable(h, rank, registry, blocks, noneHash)
    requires forall x :: x in h && h[x].cls.isGeneral ==> Lines(h, rank, x) != []
    ensures Encoded(h, rank, TypeTable(Names(registry)), blocks, noneHash).Ok?
    ensures Load(TypeTable(Names(registry)), registry, Encoded(h, rank, TypeTable(Names(registry)), blocks, noneHash).value, AsWritten)
            == Restored(Settled(h, rank))
    ensures RowIds(Encoded(h, rank, TypeTable(Names(registry)), blocks, noneHash).value) == blocks
  {
    RestoredBy(h, rank, registry, blocks, noneHash, AsWritten);
    EncodedIds(h, rank, TypeTable(Names(registry)), blocks, noneHash);
  }

  /** As written, a general block with an empty body makes the load of its own save
      fail: the stored `[]` does not read back as an empty list. */
  lemma EmptyBodyFails(h: Heap, rank: Rank, registry: seq<BT.BlockClass>, blocks: seq<Id>, noneHash: Id, g: Id)
    requires Saveable(h, rank, registry, blocks, noneHash)
    requires g in h && h[g].cls.isGeneral && Lines(h, rank, g) == []
    ensures Encoded(h, rank, TypeTable(Names(registry)), blocks, noneHash).Ok?
    ensures var r := Load(TypeTable(Names(registry)), registry, Encoded(h, rank, TypeTable(Names(registry)), blocks, noneHash).value, AsWritten);
      r.LoadFailed? && r.error.EmptyBody?
  {
    var types := TypeTable(Names(registry));
    ReadBack(h, rank, registry, blocks, noneHash, AsWritten);
    var rows := Encoded(h, rank, types, blocks, noneHash).value;
    var k :| 0 <= k < |blocks| && blocks[k] == g;
    var m := Prepared(types, registry, rows).value;
    assert Relinked(m, rows[k], AsWritten).Err?;
    forall i | 0 <= i < |rows| ensures Relinked(m, rows[i], AsWritten).Ok? || Relinked(m, rows[i], AsWritten).error.EmptyBody? {
      var x := blocks[i];
      assert x in h;
      if h[x].cls.isGeneral && Lines(h, rank, x) == [] {
        assert Relinked(m, rows[i], AsWritten) == Err(EmptyBody(x));
      } else {
        assert Relinked(m, rows[i], AsWritten).Ok?;
      }
    }
    StopsAtEmptyBody(types, registry, rows, k);
  }

  /** A load, as written, of rows that can only fail on an empty body fails on an
      empty body as soon as one row does. */
  lemma StopsAtEmptyBody(types: seq<TypeRow>, registry: seq<BT.BlockClass>, rows: seq<Row>, k: nat)
    requires UniqueIds(rows) && Prepared(types, registry, rows).Ok? && k < |rows|
    requires Relinked(Prepared(types, registry, rows).value, rows[k], AsWritten).Err?
    requires forall i :: 0 <= i < |rows| ==>
      Relinked(Prepared(types, registry, rows).value, rows[i], AsWritten).Ok? ||
      Relinked(Prepared(types, registry, rows).value, rows[i], AsWritten).error.EmptyBody?
    ensures Load(types, registry, rows, AsWritten).LoadFailed? && Load(types, registry, rows, AsWritten).error.EmptyBody?
  {
    LoadAt(types, registry, rows, AsWritten);
  }

  /** With an empty body read as an empty list, every saved diagram loads back. */
  lemma RoundTripCorrected(h: Heap, rank: Rank, registry: seq<BT.BlockClass>, blocks: seq<Id>, noneHash: Id)
    requires Saveable(h, rank, registry, blocks, noneHash)
    ensures Encoded(h, rank, TypeTable(Names(registry)), blocks, noneHash).Ok?
    ensures Load(TypeTable(Names(registry)), registry, Encoded(h, rank, TypeTable(Names(registry)), blocks, noneHash).value, Corrected)
            == Restored(Settled(h, rank))
    ensures RowIds(Encoded(h, rank, TypeTable(Names(registry)), blocks, noneHash).value) == blocks
  {
    RestoredBy(h, rank, registry, blocks, noneHash, Corrected);
    EncodedIds(h, rank, TypeTable(Names(registry)), blocks, noneHash);
  }
}
