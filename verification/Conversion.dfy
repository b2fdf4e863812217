/**
 Building typed Kubernetes objects out of manifests, guided by the declared types
 of the attributes of each model. Models may refer to themselves; manifests are
 finite.
 */
module Conversion {
  import opened Results
  import Names

  // ----- Manifests, schemas and objects -----

  datatype Key = Name(text: string) | OtherKey(id: int)

  datatype Value =
    | Null
    | Str(text: string)
    | Bool(flag: bool)
    | Int(number: int)
    | Float(float: real)
    | List(items: seq<Value>)
    | Dict(entries: map<Key, Value>)

  datatype Ty =
    | TStr | TBool | TInt | TFloat | TObject | TDateTime
    | TDict(values: Ty)
    | TList(elements: Ty)
    | TModel(model: string)

  // `attributes` pairs the Python name of an attribute with its name in manifests.
  datatype Model = Model(attributes: seq<(string, string)>, types: map<string, Ty>)

  // `isDate` says which texts the date-time format accepts.
  datatype Schema = Schema(models: map<string, Model>, isDate: string -> bool)

  datatype Obj =
    // A value kept as it is.
    | Plain(value: Value)
    | Number(float: real)
    | Date(text: string)
    | Items(items: seq<Obj>)
    | Table(table: map<string, Obj>)
    | Instance(model: string, attributes: map<string, Obj>)

  datatype Error = TypeError | ValueError

  /** The attribute for a key: by the reversed attribute map, where the last pair wins, or the key itself. */
  function AttributeOf(attributes: seq<(string, string)>, key: Key): Key {
    if attributes == [] then key
    else
      var last := attributes[|attributes| - 1];
      if key == Name(last.1) then Name(last.0) else AttributeOf(attributes[..|attributes| - 1], key)
  }

  predicate Knows(model: Model, key: Key) {
    AttributeOf(model.attributes, key).Name? && AttributeOf(model.attributes, key).text in model.types
  }

  function TypeOf(model: Model, key: Key): Ty
    requires Knows(model, key)
  {
    model.types[AttributeOf(model.attributes, key).text]
  }

  function FloatOf(v: Value): real
    requires v.Int? || v.Bool? || v.Float?
  {
    match v
    case Int(n) => n as real
    case Bool(b) => if b then 1.0 else 0.0
    case Float(x) => x
  }

  /** The number, as a float; a boolean counts as one or zero. */
  predicate IsFloatOf(v: Value, x: real) {
    && (v.Int? ==> x == v.number as real)
    && (v.Float? ==> x == v.float)
    && (v.Bool? ==> if v.flag then x == 1.0 else x == 0.0)
  }

  // ----- What a conversion means -----

  /** The value is one that the type describes. Nothing fits everything; a boolean fits an integer. */
  predicate Conforms(schema: Schema, v: Value, ty: Ty)
    decreases v
  {
    v.Null? ||
    match ty
    case TStr => v.Str?
    case TBool => v.Bool?
    case TInt => v.Int? || v.Bool?
    case TFloat => v.Int? || v.Bool? || v.Float?
    case TObject => true
    case TDateTime => v.Str? && schema.isDate(v.text)
    case TDict(values) =>
      v.Dict? && forall key | key in v.entries :: key.Name? && Conforms(schema, v.entries[key], values)
    case TList(elements) =>
      v.List? && forall i | 0 <= i < |v.items| :: Conforms(schema, v.items[i], elements)
    case TModel(name) =>
      && name in schema.models
      && v.Dict?
      && forall key | key in v.entries ::
           Knows(schema.models[name], key)
           && Conforms(schema, v.entries[key], TypeOf(schema.models[name], key))
  }

  /**
   The error of a value that does not conform: within a model it is a value error;
   a list fails as its first bad item, and a dictionary as one of its bad values.
   */
  ghost predicate FailsWith(schema: Schema, v: Value, ty: Ty, error: Error)
    decreases v
  {
    && !Conforms(schema, v, ty)
    && match ty
       case TModel(name) => error == if name !in schema.models || v.Dict? then ValueError else TypeError
       case TDict(values) =>
         if !v.Dict? || exists key | key in v.entries :: !key.Name? then error == TypeError
         else exists key | key in v.entries :: FailsWith(schema, v.entries[key], values, error)
       case TList(elements) =>
         if !v.List? then error == TypeError
         else exists i | 0 <= i < |v.items| ::
                && FailsWith(schema, v.items[i], elements, error)
                && forall j | 0 <= j < i :: Conforms(schema, v.items[j], elements)
       case _ => error == TypeError
  }

  /** The key of some entry names this attribute. */
  predicate Named(model: Model, entries: map<Key, Value>, attribute: Key) {
    exists key | key in entries :: AttributeOf(model.attributes, key) == attribute
  }

  /** The two values hold the same data, though entries may have different keys for one attribute. */
  predicate SameData(schema: Schema, v: Value, v': Value, ty: Ty)
    requires Conforms(schema, v, ty) && Conforms(schema, v', ty)
    decreases v
  {
    if v.Null? || v'.Null? then v == v'
    else match ty
         case TFloat => FloatOf(v) == FloatOf(v')
         case TDict(values) =>
           && v.entries.Keys == v'.entries.Keys
           && forall key | key in v.entries :: SameData(schema, v.entries[key], v'.entries[key], values)
         case TList(elements) =>
           && |v.items| == |v'.items|
           && forall i | 0 <= i < |v.items| :: SameData(schema, v.items[i], v'.items[i], elements)
         case TModel(name) =>
           var model := schema.models[name];
           && (forall key | key in v.entries :: Named(model, v'.entries, AttributeOf(model.attributes, key)))
           && (forall key | key in v'.entries :: Named(model, v.entries, AttributeOf(model.attributes, key)))
           && (forall key, key' | key in v.entries && key' in v'.entries
                 && AttributeOf(model.attributes, key) == AttributeOf(model.attributes, key') ::
                 SameData(schema, v.entries[key], v'.entries[key'], TypeOf(model, key)))
         case _ => v == v'
  }

  /** At any depth, entries whose keys name the same attribute hold the same data. */
  predicate Agrees(schema: Schema, v: Value, ty: Ty)
    requires Conforms(schema, v, ty)
    decreases v
  {
    v.Null? ||
    match ty
    case TDict(values) => forall key | key in v.entries :: Agrees(schema, v.entries[key], values)
    case TList(elements) => forall i | 0 <= i < |v.items| :: Agrees(schema, v.items[i], elements)
    case TModel(name) =>
      var model := schema.models[name];
      && (forall key | key in v.entries :: Agrees(schema, v.entries[key], TypeOf(model, key)))
      && (forall key, key' | key in v.entries && key' in v.entries
            && AttributeOf(model.attributes, key) == AttributeOf(model.attributes, key') ::
            SameData(schema, v.entries[key], v.entries[key'], TypeOf(model, key)))
    case _ => true
  }

  /**
   `w` is the manifest `v` with the keys of models renamed, and numbers turned into
   floats where one is declared: nothing is lost.
   */
  predicate IsRenaming(schema: Schema, v: Value, ty: Ty, w: Value)
    requires Conforms(schema, v, ty)
    decreases v
  {
    if v.Null? then w.Null?
    else match ty
         case TFloat => w.Float? && IsFloatOf(v, w.float)
         case TDict(values) =>
           && w.Dict? && w.entries.Keys == v.entries.Keys
           && forall key | key in v.entries :: IsRenaming(schema, v.entries[key], values, w.entries[key])
         case TList(elements) =>
           && w.List? && |w.items| == |v.items|
           && forall i | 0 <= i < |v.items| :: IsRenaming(schema, v.items[i], elements, w.items[i])
         case TModel(name) =>
           var model := schema.models[name];
           && w.Dict?
           && (forall key | key in v.entries ::
                 var attribute := AttributeOf(model.attributes, key);
                 attribute in w.entries
                 && IsRenaming(schema, v.entries[key], TypeOf(model, key), w.entries[attribute]))
           && (forall attribute | attribute in w.entries :: Named(model, v.entries, attribute))
         case _ => w == v
  }

  /**
   `w` is what is left of the manifest `v`: of the entries that name one attribute,
   only one is kept, whichever that is.
   */
  predicate Keeps(schema: Schema, v: Value, ty: Ty, w: Value)
    requires Conforms(schema, v, ty)
    decreases v
  {
    if v.Null? then w.Null?
    else match ty
         case TFloat => w.Float? && IsFloatOf(v, w.float)
         case TDict(values) =>
           && w.Dict? && w.entries.Keys == v.entries.Keys
           && forall key | key in v.entries :: Keeps(schema, v.entries[key], values, w.entries[key])
         case TList(elements) =>
           && w.List? && |w.items| == |v.items|
           && forall i | 0 <= i < |v.items| :: Keeps(schema, v.items[i], elements, w.items[i])
         case TModel(name) =>
           var model := schema.models[name];
           && w.Dict?
           && (forall key | key in v.entries :: AttributeOf(model.attributes, key) in w.entries)
           && (forall attribute | attribute in w.entries ::
                 exists key | key in v.entries ::
                   && AttributeOf(model.attributes, key) == attribute
                   && Keeps(schema, v.entries[key], TypeOf(model, key), w.entries[attribute]))
         case _ => w == v
  }

  /** The plain data in an object. */
  function Erase(o: Obj): Value {
    match o
    case Plain(v) => v
    case Number(x) => Float(x)
    case Date(text) => Str(text)
    case Items(items) => List(seq(|items|, i requires 0 <= i < |items| => Erase(items[i])))
    case Table(table) => Dict(map key: Key | key in NamesIn(table.Keys) :: Erase(table[key.text]))
    case Instance(_, attributes) => Dict(map key: Key | key in NamesIn(attributes.Keys) :: Erase(attributes[key.text]))
  }

  /** The object is one of this type, all the way down. */
  predicate HasType(schema: Schema, o: Obj, ty: Ty)
    decreases o
  {
    o == Plain(Null) ||
    match ty
    case TStr => o.Plain? && o.value.Str?
    case TBool => o.Plain? && o.value.Bool?
    case TInt => o.Plain? && (o.value.Int? || o.value.Bool?)
    case TFloat => o.Number?
    case TObject => o.Plain?
    case TDateTime => o.Date? && schema.isDate(o.text)
    case TDict(values) => o.Table? && forall text | text in o.table :: HasType(schema, o.table[text], values)
    case TList(elements) => o.Items? && forall i | 0 <= i < |o.items| :: HasType(schema, o.items[i], elements)
    case TModel(name) =>
      && name in schema.models && o.Instance? && o.model == name
      && forall text | text in o.attributes ::
           text in schema.models[name].types && HasType(schema, o.attributes[text], schema.models[name].types[text])
  }

  function NamesIn(texts: set<string>): (keys: set<Key>)
    ensures forall key :: key in keys <==> key.Name? && key.text in texts
  {
    set text | text in texts :: Name(text)
  }

  // ----- The conversion -----

  method CastValue(schema: Schema, v: Value, ty: Ty) returns (r: Result<Obj, Error>)
    ensures r.Ok? <==> Conforms(schema, v, ty)
    ensures r.Ok? ==> HasType(schema, r.value, ty) && Keeps(schema, v, ty, Erase(r.value))
    ensures r.Ok? ==> (IsRenaming(schema, v, ty, Erase(r.value)) <==> Agrees(schema, v, ty))
    ensures r.Err? ==> FailsWith(schema, v, ty, r.error)
    decreases v, 1
  {
    hide SameData, Agrees, IsRenaming;
    if v.Null? {
      r := Ok(Plain(v));
    } else {
      match ty
      case TStr => r := if v.Str? then Ok(Plain(v)) else Err(TypeError);
      case TBool => r := if v.Bool? then Ok(Plain(v)) else Err(TypeError);
      case TInt => r := if v.Int? || v.Bool? then Ok(Plain(v)) else Err(TypeError);
      case TFloat => r := if v.Int? || v.Bool? || v.Float? then Ok(Number(FloatOf(v))) else Err(TypeError);
      case TObject => r := Ok(Plain(v));
      case TDateTime => r := if v.Str? && schema.isDate(v.text) then Ok(Date(v.text)) else Err(TypeError);
      case TDict(values) => r := CastDict(schema, v, values);
      case TList(elements) => r := CastList(schema, v, elements);
      case TModel(name) =>
        if name !in schema.models {
          r := Err(ValueError);
        } else if !v.Dict? {
          r := Err(TypeError);
        } else {
          r := BuildStandardObject(schema, name, v);
        }
    }
    if r.Ok? {
      LosslessExactlyWhen(schema, v, ty, Erase(r.value));
    }
  }

  method CastList(schema: Schema, v: Value, elements: Ty) returns (r: Result<Obj, Error>)
    requires !v.Null?
    ensures r.Ok? <==> Conforms(schema, v, TList(elements))
    ensures r.Err? ==> FailsWith(schema, v, TList(elements), r.error)
    ensures r.Ok? ==> HasType(schema, r.value, TList(elements)) && Keeps(schema, v, TList(elements), Erase(r.value))
    decreases v, 0
  {
    hide SameData, Agrees, IsRenaming;
    if !v.List? {
      return Err(TypeError);
    }
    var items: seq<Obj> := [];
    for i := 0 to |v.items|
      invariant |items| == i
      invariant forall j | 0 <= j < i :: Conforms(schema, v.items[j], elements)
      invariant forall j | 0 <= j < i ::
                  HasType(schema, items[j], elements) && Keeps(schema, v.items[j], elements, Erase(items[j]))
    {
      var item := CastValue(schema, v.items[i], elements);
      if item.Err? {
        return Err(item.error);
      }
      items := items + [item.value];
    }
    r := Ok(Items(items));
  }

  method CastDict(schema: Schema, v: Value, values: Ty) returns (r: Result<Obj, Error>)
    requires !v.Null?
    ensures r.Ok? <==> Conforms(schema, v, TDict(values))
    ensures r.Err? ==> FailsWith(schema, v, TDict(values), r.error)
    ensures r.Ok? ==> HasType(schema, r.value, TDict(values)) && Keeps(schema, v, TDict(values), Erase(r.value))
    decreases v, 0
  {
    hide Conforms, Keeps, Erase, DictDone, Agrees, IsRenaming, HasType, FailsWith;
    if !v.Dict? {
      DictRejects(schema, v, values);
      return Err(TypeError);
    }
    if exists key | key in v.entries :: !key.Name? {
      DictRejects(schema, v, values);
      return Err(TypeError);
    }
    var table: map<string, Obj> := map[];
    var todo := v.entries.Keys;
    ghost var done: set<Key> := {};
    DictStarts(schema, v, values);
    while todo != {}
      invariant done <= v.entries.Keys && todo == v.entries.Keys - done
      invariant DictDone(schema, v, values, done, table)
      decreases |todo|
    {
      var key :| key in todo;
      var value := CastValue(schema, v.entries[key], values);
      if value.Err? {
        DictFails(schema, v, values, key, value.error);
        return Err(value.error);
      }
      DictGrows(schema, v, values, done, table, key, value.value);
      done := done + {key};
      todo := todo - {key};
      table := table[key.text := value.value];
    }
    assert done == v.entries.Keys;
    DictEnds(schema, v, values, table);
    r := Ok(Table(table));
  }

  /** The entries with these keys were cast into the table. */
  ghost predicate DictDone(schema: Schema, v: Value, values: Ty, done: set<Key>, table: map<string, Obj>)
    requires v.Dict? && done <= v.entries.Keys
  {
    && (forall key | key in v.entries :: key.Name?)
    && NamesIn(table.Keys) == done
    && (forall key | key in done ::
          && Conforms(schema, v.entries[key], values)
          && HasType(schema, table[key.text], values)
          && Keeps(schema, v.entries[key], values, Erase(table[key.text])))
  }

  lemma DictRejects(schema: Schema, v: Value, values: Ty)
    requires !v.Null?
    requires !v.Dict? || exists key | key in v.entries :: !key.Name?
    ensures FailsWith(schema, v, TDict(values), TypeError)
  {
  }

  lemma DictStarts(schema: Schema, v: Value, values: Ty)
    requires v.Dict? && forall key | key in v.entries :: key.Name?
    ensures DictDone(schema, v, values, {}, map[])
  {
  }

  lemma DictFails(schema: Schema, v: Value, values: Ty, key: Key, error: Error)
    requires v.Dict? && (forall key | key in v.entries :: key.Name?)
    requires key in v.entries && FailsWith(schema, v.entries[key], values, error)
    ensures FailsWith(schema, v, TDict(values), error)
  {
  }

  lemma DictGrows(schema: Schema, v: Value, values: Ty, done: set<Key>, table: map<string, Obj>, key: Key, o: Obj)
    requires v.Dict? && done <= v.entries.Keys && key in v.entries
    requires DictDone(schema, v, values, done, table)
    requires Conforms(schema, v.entries[key], values) && Keeps(schema, v.entries[key], values, Erase(o))
    requires key.Name? && HasType(schema, o, values)
    ensures DictDone(schema, v, values, done + {key}, table[key.text := o])
  {
    hide Conforms, Keeps, Erase, HasType;
    var more := table[key.text := o];
    assert NamesIn(more.Keys) == done + {key};
    forall k | k in done + {key}
      ensures Conforms(schema, v.entries[k], values) && Keeps(schema, v.entries[k], values, Erase(more[k.text]))
      ensures HasType(schema, more[k.text], values)
    {
      assert k.Name? && (k != key ==> k.text != key.text && more[k.text] == table[k.text]);
    }
  }

  lemma DictEnds(schema: Schema, v: Value, values: Ty, table: map<string, Obj>)
    requires v.Dict? && DictDone(schema, v, values, v.entries.Keys, table)
    ensures Conforms(schema, v, TDict(values))
    ensures Keeps(schema, v, TDict(values), Erase(Table(table))) && HasType(schema, Table(table), TDict(values))
  {
    var w := Erase(Table(table));
    assert w.entries.Keys == v.entries.Keys;
    forall text | text in table ensures HasType(schema, table[text], values) {
      assert Name(text) in v.entries;
    }
  }

  /** Every attribute of the manifest is known and cast to its type; a bad value is a value error here. */
  method BuildStandardObject(schema: Schema, name: string, manifest: Value) returns (r: Result<Obj, Error>)
    requires name in schema.models && manifest.Dict?
    ensures r.Ok? <==> Conforms(schema, manifest, TModel(name))
    ensures r.Err? ==> r.error.ValueError?
    ensures r.Ok? ==> HasType(schema, r.value, TModel(name)) && Keeps(schema, manifest, TModel(name), Erase(r.value))
    ensures r.Ok? ==> (IsRenaming(schema, manifest, TModel(name), Erase(r.value)) <==>
                       Agrees(schema, manifest, TModel(name)))
    decreases manifest, 0
  {
    hide Conforms, Keeps, Erase, AttributeOf, Agrees, IsRenaming, ModelDone, HasType;
    var model := schema.models[name];
    var kwargs: map<string, Obj> := map[];
    var todo := manifest.entries.Keys;
    ghost var done: set<Key> := {};
    ModelStarts(schema, name, manifest);
    while todo != {}
      invariant done <= manifest.entries.Keys && todo == manifest.entries.Keys - done
      invariant ModelDone(schema, name, manifest, done, kwargs)
      decreases |todo|
    {
      var key :| key in todo;
      if !Knows(model, key) {
        ModelFails(schema, name, manifest, key);
        return Err(ValueError);
      }
      var value := CastValue(schema, manifest.entries[key], TypeOf(model, key));
      if value.Err? {
        ModelFails(schema, name, manifest, key);
        return Err(ValueError);
      }
      ModelGrows(schema, name, manifest, done, kwargs, key, value.value);
      done := done + {key};
      todo := todo - {key};
      kwargs := kwargs[AttributeOf(model.attributes, key).text := value.value];
    }
    assert done == manifest.entries.Keys;
    ModelEnds(schema, name, manifest, kwargs);
    r := Ok(Instance(name, kwargs));
    LosslessExactlyWhen(schema, manifest, TModel(name), Erase(r.value));
  }

  /** The attribute with this name holds what one of the entries with these keys was cast to. */
  ghost predicate Holds(schema: Schema, model: Model, entries: map<Key, Value>, done: set<Key>,
                        kwargs: map<string, Obj>, text: string)
    requires text in kwargs && done <= entries.Keys
    requires forall key | key in done :: Knows(model, key) && Conforms(schema, entries[key], TypeOf(model, key))
  {
    exists key | key in done ::
      && AttributeOf(model.attributes, key) == Name(text)
      && HasType(schema, kwargs[text], TypeOf(model, key))
      && Keeps(schema, entries[key], TypeOf(model, key), Erase(kwargs[text]))
  }

  /** The entries with these keys were cast into attributes; where two collide, the later one stays. */
  ghost predicate ModelDone(schema: Schema, name: string, manifest: Value, done: set<Key>, kwargs: map<string, Obj>)
    requires name in schema.models && manifest.Dict? && done <= manifest.entries.Keys
  {
    var model := schema.models[name];
    && (forall key | key in done ::
          Knows(model, key) && Conforms(schema, manifest.entries[key], TypeOf(model, key)))
    && (forall key | key in done :: AttributeOf(model.attributes, key).text in kwargs)
    && (forall text | text in kwargs :: Holds(schema, model, manifest.entries, done, kwargs, text))
  }

  lemma ModelStarts(schema: Schema, name: string, manifest: Value)
    requires name in schema.models && manifest.Dict?
    ensures ModelDone(schema, name, manifest, {}, map[])
  {
  }

  lemma ModelFails(schema: Schema, name: string, manifest: Value, key: Key)
    requires name in schema.models && manifest.Dict? && key in manifest.entries
    requires !Knows(schema.models[name], key)
             || !Conforms(schema, manifest.entries[key], TypeOf(schema.models[name], key))
    ensures !Conforms(schema, manifest, TModel(name))
  {
  }

  lemma ModelGrows(schema: Schema, name: string, manifest: Value, done: set<Key>, kwargs: map<string, Obj>,
                   key: Key, o: Obj)
    requires name in schema.models && manifest.Dict? && done <= manifest.entries.Keys && key in manifest.entries
    requires ModelDone(schema, name, manifest, done, kwargs)
    requires key !in done && Knows(schema.models[name], key)
    requires var ty := TypeOf(schema.models[name], key);
             && Conforms(schema, manifest.entries[key], ty) && HasType(schema, o, ty)
             && Keeps(schema, manifest.entries[key], ty, Erase(o))
    ensures ModelDone(schema, name, manifest, done + {key},
                      kwargs[AttributeOf(schema.models[name].attributes, key).text := o])
  {
    hide Conforms, Keeps, Erase, AttributeOf, HasType;
    var model := schema.models[name];
    var attribute := AttributeOf(model.attributes, key);
    var more := kwargs[attribute.text := o];
    forall text | text in more ensures Holds(schema, model, manifest.entries, done + {key}, more, text) {
      if text == attribute.text {
        assert AttributeOf(model.attributes, key) == Name(text);
      } else {
        assert Holds(schema, model, manifest.entries, done, kwargs, text);
      }
    }
  }

  lemma ModelEnds(schema: Schema, name: string, manifest: Value, kwargs: map<string, Obj>)
    requires name in schema.models && manifest.Dict?
    requires ModelDone(schema, name, manifest, manifest.entries.Keys, kwargs)
    ensures Conforms(schema, manifest, TModel(name))
    ensures Keeps(schema, manifest, TModel(name), Erase(Instance(name, kwargs)))
    ensures HasType(schema, Instance(name, kwargs), TModel(name))
  {
    hide AttributeOf;
    var model := schema.models[name];
    var w := Erase(Instance(name, kwargs));
    forall attribute | attribute in w.entries
      ensures exists key | key in manifest.entries ::
                && AttributeOf(model.attributes, key) == attribute
                && Keeps(schema, manifest.entries[key], TypeOf(model, key), w.entries[attribute])
    {
      assert attribute == Name(attribute.text) && attribute.text in kwargs;
      assert Holds(schema, model, manifest.entries, manifest.entries.Keys, kwargs, attribute.text);
    }
  }

  // ----- Attributes by their names in manifests -----

  /** The last pair with this name in manifests is the `i`th. */
  predicate IsLastNamed(attributes: seq<(string, string)>, text: string, i: nat) {
    && i < |attributes| && attributes[i].1 == text
    && forall j | i < j < |attributes| :: attributes[j].1 != text
  }

  /** A key names the attribute of the last pair that has it, and a key that no pair has names itself. */
  lemma {:induction false} AttributeOfMeans(attributes: seq<(string, string)>, key: Key)
    ensures forall i: nat | key.Name? && IsLastNamed(attributes, key.text, i) ::
              AttributeOf(attributes, key) == Name(attributes[i].0)
    ensures (forall i | 0 <= i < |attributes| :: key != Name(attributes[i].1)) ==> AttributeOf(attributes, key) == key
  {
    if attributes != [] {
      var n := |attributes| - 1;
      AttributeOfMeans(attributes[..n], key);
      forall i: nat | key.Name? && IsLastNamed(attributes, key.text, i)
        ensures AttributeOf(attributes, key) == Name(attributes[i].0)
      {
        if i < n {
          assert attributes[n].1 != key.text && IsLastNamed(attributes[..n], key.text, i);
        }
      }
    }
  }

  /** The two names of an attribute are its own. */
  predicate Distinct(attributes: seq<(string, string)>) {
    forall i, j | 0 <= i < j < |attributes| ::
      attributes[i].0 != attributes[j].0 && attributes[i].1 != attributes[j].1
  }

  /** The manifest gives attributes by their names in manifests only. */
  predicate ByNames(attributes: seq<(string, string)>, v: Value)
    requires v.Dict?
  {
    forall key | key in v.entries :: exists i | 0 <= i < |attributes| :: key == Name(attributes[i].1)
  }

  /**
   A manifest that gives attributes by their names conforms to the model exactly when each
   of its values conforms to the type that the model declares for that attribute.
   */
  lemma NamedManifestConforms(schema: Schema, name: string, v: Value)
    requires name in schema.models && v.Dict?
    requires Distinct(schema.models[name].attributes) && ByNames(schema.models[name].attributes, v)
    ensures var model := schema.models[name];
            Conforms(schema, v, TModel(name)) <==>
            forall i | 0 <= i < |model.attributes| && Name(model.attributes[i].1) in v.entries ::
              && model.attributes[i].0 in model.types
              && Conforms(schema, v.entries[Name(model.attributes[i].1)], model.types[model.attributes[i].0])
  {
    hide AttributeOf;
    var model := schema.models[name];
    forall i | 0 <= i < |model.attributes|
      ensures AttributeOf(model.attributes, Name(model.attributes[i].1)) == Name(model.attributes[i].0)
    {
      NamesItsAttribute(model.attributes, i);
    }
  }

  lemma NamesItsAttribute(attributes: seq<(string, string)>, i: nat)
    requires Distinct(attributes) && i < |attributes|
    ensures AttributeOf(attributes, Name(attributes[i].1)) == Name(attributes[i].0)
  {
    AttributeOfMeans(attributes, Name(attributes[i].1));
    assert IsLastNamed(attributes, attributes[i].1, i);
  }

  /** The value that the manifest gives for the `i`th attribute, if any, is kept under that attribute. */
  ghost predicate KeptUnder(schema: Schema, model: Model, v: Value, w: Value, i: nat)
    requires v.Dict? && w.Dict? && i < |model.attributes|
  {
    var attribute, key := Name(model.attributes[i].0), Name(model.attributes[i].1);
    && (attribute in w.entries <==> key in v.entries)
    && (key in v.entries ==>
          && attribute.text in model.types
          && Conforms(schema, v.entries[key], model.types[attribute.text])
          && Keeps(schema, v.entries[key], model.types[attribute.text], w.entries[attribute]))
  }

  /** What is kept of such a manifest is each value, under its own attribute, and nothing else. */
  lemma NamedManifestKept(schema: Schema, name: string, v: Value, w: Value)
    requires name in schema.models && v.Dict? && Conforms(schema, v, TModel(name))
    requires Distinct(schema.models[name].attributes) && ByNames(schema.models[name].attributes, v)
    requires Keeps(schema, v, TModel(name), w)
    ensures var model := schema.models[name];
            && w.Dict?
            && (forall i | 0 <= i < |model.attributes| :: KeptUnder(schema, model, v, w, i))
            && (forall key | key in w.entries ::
                  exists i | 0 <= i < |model.attributes| :: key == Name(model.attributes[i].0))
  {
    hide AttributeOf, Distinct, KeptUnder;
    var model := schema.models[name];
    forall i | 0 <= i < |model.attributes| ensures KeptUnder(schema, model, v, w, i) {
      OneKeptUnder(schema, name, v, w, i);
    }
    forall attribute | attribute in w.entries
      ensures exists i | 0 <= i < |model.attributes| :: attribute == Name(model.attributes[i].0)
    {
      var key :| key in v.entries && AttributeOf(model.attributes, key) == attribute;
      var i :| 0 <= i < |model.attributes| && key == Name(model.attributes[i].1);
      NamesItsAttribute(model.attributes, i);
    }
  }

  lemma OneKeptUnder(schema: Schema, name: string, v: Value, w: Value, i: nat)
    requires name in schema.models && v.Dict? && Conforms(schema, v, TModel(name))
    requires Distinct(schema.models[name].attributes) && ByNames(schema.models[name].attributes, v)
    requires Keeps(schema, v, TModel(name), w) && i < |schema.models[name].attributes|
    ensures w.Dict? && KeptUnder(schema, schema.models[name], v, w, i)
  {
    hide AttributeOf;
    var model := schema.models[name];
    var attribute := Name(model.attributes[i].0);
    NamesItsAttribute(model.attributes, i);
    if attribute in w.entries {
      var key :| key in v.entries && AttributeOf(model.attributes, key) == attribute
                 && Keeps(schema, v.entries[key], TypeOf(model, key), w.entries[attribute]);
      var j :| 0 <= j < |model.attributes| && key == Name(model.attributes[j].1);
      NamesItsAttribute(model.attributes, j);
      assert i == j;
    }
  }

  // ----- What is lost, and what is not -----

  /** A manifest has one renaming at most: a conversion keeps neither more nor less than it. */
  lemma {:induction false} RenamingIsUnique(schema: Schema, v: Value, ty: Ty, w: Value, w': Value)
    requires Conforms(schema, v, ty)
    requires IsRenaming(schema, v, ty, w) && IsRenaming(schema, v, ty, w')
    ensures w == w'
    decreases v
  {
    hide AttributeOf;
    if !v.Null? {
      match ty
      case TDict(values) =>
        forall key | key in v.entries ensures w.entries[key] == w'.entries[key] {
          RenamingIsUnique(schema, v.entries[key], values, w.entries[key], w'.entries[key]);
        }
        assert w.entries == w'.entries;
      case TList(elements) =>
        forall i | 0 <= i < |v.items| ensures w.items[i] == w'.items[i] {
          RenamingIsUnique(schema, v.items[i], elements, w.items[i], w'.items[i]);
        }
        assert w.items == w'.items;
      case TModel(name) =>
        var model := schema.models[name];
        forall key | key in v.entries
          ensures w.entries[AttributeOf(model.attributes, key)] == w'.entries[AttributeOf(model.attributes, key)]
        {
          RenamingIsUnique(schema, v.entries[key], TypeOf(model, key),
                           w.entries[AttributeOf(model.attributes, key)],
                           w'.entries[AttributeOf(model.attributes, key)]);
        }
        assert w.entries.Keys == w'.entries.Keys;
        assert w.entries == w'.entries;
      case _ =>
    }
  }

  /** Values hold the same data exactly when what is a renaming of one is a renaming of the other. */
  lemma {:induction false} SameDataExactlyWhen(schema: Schema, v: Value, v': Value, ty: Ty, w: Value)
    requires Conforms(schema, v, ty) && Conforms(schema, v', ty)
    requires IsRenaming(schema, v, ty, w)
    ensures SameData(schema, v, v', ty) <==> IsRenaming(schema, v', ty, w)
    decreases v
  {
    hide AttributeOf;
    if !v.Null? && !v'.Null? {
      match ty
      case TDict(values) =>
        forall key | key in v.entries && key in v'.entries && w.entries.Keys == v.entries.Keys
          ensures SameData(schema, v.entries[key], v'.entries[key], values) <==>
                  IsRenaming(schema, v'.entries[key], values, w.entries[key])
        {
          SameDataExactlyWhen(schema, v.entries[key], v'.entries[key], values, w.entries[key]);
        }
      case TList(elements) =>
        forall i | 0 <= i < |v.items| && |v.items| == |v'.items|
          ensures SameData(schema, v.items[i], v'.items[i], elements) <==>
                  IsRenaming(schema, v'.items[i], elements, w.items[i])
        {
          SameDataExactlyWhen(schema, v.items[i], v'.items[i], elements, w.items[i]);
        }
      case TModel(name) =>
        SameModelExactlyWhen(schema, v, v', name, w);
      case _ =>
    }
  }

  lemma {:induction false} SameModelExactlyWhen(schema: Schema, v: Value, v': Value, name: string, w: Value)
    requires Conforms(schema, v, TModel(name)) && Conforms(schema, v', TModel(name)) && v.Dict? && v'.Dict?
    requires IsRenaming(schema, v, TModel(name), w)
    ensures SameData(schema, v, v', TModel(name)) <==> IsRenaming(schema, v', TModel(name), w)
    decreases v, 0
  {
    hide AttributeOf;
    var model := schema.models[name];
    forall key, key' | key in v.entries && key' in v'.entries
                       && AttributeOf(model.attributes, key) == AttributeOf(model.attributes, key')
      ensures SameData(schema, v.entries[key], v'.entries[key'], TypeOf(model, key)) <==>
              IsRenaming(schema, v'.entries[key'], TypeOf(model, key), w.entries[AttributeOf(model.attributes, key)])
    {
      SameDataExactlyWhen(schema, v.entries[key], v'.entries[key'], TypeOf(model, key),
                          w.entries[AttributeOf(model.attributes, key)]);
    }
  }

  /**
   What a conversion keeps of a manifest is all of it exactly when entries that name
   one attribute agree, at any depth.
   */
  lemma {:induction false} LosslessExactlyWhen(schema: Schema, v: Value, ty: Ty, w: Value)
    requires Conforms(schema, v, ty) && Keeps(schema, v, ty, w)
    ensures IsRenaming(schema, v, ty, w) <==> Agrees(schema, v, ty)
    decreases v
  {
    if Agrees(schema, v, ty) {
      AgreeingIsLossless(schema, v, ty, w);
    }
    if IsRenaming(schema, v, ty, w) {
      RenamedAgrees(schema, v, ty, w);
    }
  }

  lemma {:induction false} AgreeingIsLossless(schema: Schema, v: Value, ty: Ty, w: Value)
    requires Conforms(schema, v, ty) && Keeps(schema, v, ty, w) && Agrees(schema, v, ty)
    ensures IsRenaming(schema, v, ty, w)
    decreases v
  {
    hide AttributeOf, SameData;
    if !v.Null? {
      match ty
      case TDict(values) =>
        forall key | key in v.entries ensures IsRenaming(schema, v.entries[key], values, w.entries[key]) {
          AgreeingIsLossless(schema, v.entries[key], values, w.entries[key]);
        }
      case TList(elements) =>
        forall i | 0 <= i < |v.items| ensures IsRenaming(schema, v.items[i], elements, w.items[i]) {
          AgreeingIsLossless(schema, v.items[i], elements, w.items[i]);
        }
      case TModel(name) =>
        var model := schema.models[name];
        forall key | key in v.entries
          ensures IsRenaming(schema, v.entries[key], TypeOf(model, key), w.entries[AttributeOf(model.attributes, key)])
        {
          var attribute := AttributeOf(model.attributes, key);
          var kept :| kept in v.entries && AttributeOf(model.attributes, kept) == attribute
                      && Keeps(schema, v.entries[kept], TypeOf(model, kept), w.entries[attribute]);
          AgreeingIsLossless(schema, v.entries[kept], TypeOf(model, kept), w.entries[attribute]);
          SameDataExactlyWhen(schema, v.entries[kept], v.entries[key], TypeOf(model, key), w.entries[attribute]);
        }
      case _ =>
    }
  }

  lemma {:induction false} RenamedAgrees(schema: Schema, v: Value, ty: Ty, w: Value)
    requires Conforms(schema, v, ty) && IsRenaming(schema, v, ty, w)
    ensures Agrees(schema, v, ty)
    decreases v
  {
    hide AttributeOf, SameData;
    if !v.Null? {
      match ty
      case TDict(values) =>
        forall key | key in v.entries ensures Agrees(schema, v.entries[key], values) {
          RenamedAgrees(schema, v.entries[key], values, w.entries[key]);
        }
      case TList(elements) =>
        forall i | 0 <= i < |v.items| ensures Agrees(schema, v.items[i], elements) {
          RenamedAgrees(schema, v.items[i], elements, w.items[i]);
        }
      case TModel(name) =>
        var model := schema.models[name];
        forall key | key in v.entries ensures Agrees(schema, v.entries[key], TypeOf(model, key)) {
          RenamedAgrees(schema, v.entries[key], TypeOf(model, key), w.entries[AttributeOf(model.attributes, key)]);
        }
        forall key, key' | key in v.entries && key' in v.entries
                           && AttributeOf(model.attributes, key) == AttributeOf(model.attributes, key')
          ensures SameData(schema, v.entries[key], v.entries[key'], TypeOf(model, key))
        {
          SameDataExactlyWhen(schema, v.entries[key], v.entries[key'], TypeOf(model, key),
                              w.entries[AttributeOf(model.attributes, key)]);
        }
      case _ =>
    }
  }

  /** No two keys of one dictionary name the same attribute, at any depth. */
  predicate NoCollision(schema: Schema, v: Value, ty: Ty)
    requires Conforms(schema, v, ty)
    decreases v
  {
    v.Null? ||
    match ty
    case TDict(values) => forall key | key in v.entries :: NoCollision(schema, v.entries[key], values)
    case TList(elements) => forall i | 0 <= i < |v.items| :: NoCollision(schema, v.items[i], elements)
    case TModel(name) =>
      var model := schema.models[name];
      && (forall key, key' | key in v.entries && key' in v.entries && key != key' ::
            AttributeOf(model.attributes, key) != AttributeOf(model.attributes, key'))
      && (forall key | key in v.entries :: NoCollision(schema, v.entries[key], TypeOf(model, key)))
    case _ => true
  }

  /** Where nothing collides nothing is lost: whatever a conversion keeps is the whole manifest, renamed. */
  lemma {:induction false} NoCollisionIsLossless(schema: Schema, v: Value, ty: Ty, w: Value)
    requires Conforms(schema, v, ty) && NoCollision(schema, v, ty) && Keeps(schema, v, ty, w)
    ensures IsRenaming(schema, v, ty, w)
    decreases v
  {
    hide AttributeOf, SameData, Agrees;
    if !v.Null? {
      match ty
      case TDict(values) =>
        forall key | key in v.entries ensures IsRenaming(schema, v.entries[key], values, w.entries[key]) {
          NoCollisionIsLossless(schema, v.entries[key], values, w.entries[key]);
        }
      case TList(elements) =>
        forall i | 0 <= i < |v.items| ensures IsRenaming(schema, v.items[i], elements, w.items[i]) {
          NoCollisionIsLossless(schema, v.items[i], elements, w.items[i]);
        }
      case TModel(name) =>
        var model := schema.models[name];
        forall key | key in v.entries
          ensures IsRenaming(schema, v.entries[key], TypeOf(model, key), w.entries[AttributeOf(model.attributes, key)])
        {
          var attribute := AttributeOf(model.attributes, key);
          var kept :| kept in v.entries && AttributeOf(model.attributes, kept) == attribute
                      && Keeps(schema, v.entries[kept], TypeOf(model, kept), w.entries[attribute]);
          assert kept == key;
          NoCollisionIsLossless(schema, v.entries[key], TypeOf(model, key), w.entries[attribute]);
        }
      case _ =>
    }
  }

  // A model that, as those of Kubernetes, knows an attribute by two keys.
  const EXAMPLE := Schema(
    map["Pod" := Model([("api_version", "apiVersion")], map["api_version" := TStr])],
    text => false)

  function TwoKeys(a: string, b: string): Value {
    Dict(map[Name("apiVersion") := Str(a), Name("api_version") := Str(b)])
  }

  lemma TwoKeysConform(a: string, b: string, key: Key)
    ensures Conforms(EXAMPLE, TwoKeys(a, b), TModel("Pod"))
    ensures key in TwoKeys(a, b).entries ==>
              AttributeOf(EXAMPLE.models["Pod"].attributes, key) == Name("api_version")
              && TypeOf(EXAMPLE.models["Pod"], key) == TStr
  {
    var attributes := EXAMPLE.models["Pod"].attributes;
    assert attributes[..0] == [] && AttributeOf(attributes[..0], Name("api_version")) == Name("api_version");
  }

  /**
   A manifest that gives the API version by both keys conforms in any case, but it
   can be kept exactly if both give the same: otherwise it has no renaming at all.
   */
  lemma CollisionLoses(a: string, b: string)
    ensures Conforms(EXAMPLE, TwoKeys(a, b), TModel("Pod")) && !NoCollision(EXAMPLE, TwoKeys(a, b), TModel("Pod"))
    ensures Agrees(EXAMPLE, TwoKeys(a, b), TModel("Pod")) <==> a == b
    ensures a == b <==> exists w :: IsRenaming(EXAMPLE, TwoKeys(a, b), TModel("Pod"), w)
  {
    hide AttributeOf, Conforms, IsRenaming, Keeps;
    var v := TwoKeys(a, b);
    var k, k' := Name("apiVersion"), Name("api_version");
    assert v.entries.Keys == {k, k'} && v.entries[k] == Str(a) && v.entries[k'] == Str(b);
    TwoKeysConform(a, b, k);
    TwoKeysConform(a, b, k');
    assert SameData(EXAMPLE, v.entries[k], v.entries[k'], TStr) <==> a == b;
    assert Agrees(EXAMPLE, v.entries[k], TStr) && Agrees(EXAMPLE, v.entries[k'], TStr);
    forall w | IsRenaming(EXAMPLE, v, TModel("Pod"), w) ensures a == b {
      RenamedAgrees(EXAMPLE, v, TModel("Pod"), w);
    }
    if a == b {
      EitherKept(a, b);
      LosslessExactlyWhen(EXAMPLE, v, TModel("Pod"), Dict(map[k' := Str(a)]));
    }
  }

  lemma EitherKept(a: string, b: string)
    requires Conforms(EXAMPLE, TwoKeys(a, b), TModel("Pod"))
    ensures Keeps(EXAMPLE, TwoKeys(a, b), TModel("Pod"), Dict(map[Name("api_version") := Str(a)]))
    ensures Keeps(EXAMPLE, TwoKeys(a, b), TModel("Pod"), Dict(map[Name("api_version") := Str(b)]))
  {
    hide AttributeOf, Conforms;
    var k, k' := Name("apiVersion"), Name("api_version");
    TwoKeysConform(a, b, k);
    TwoKeysConform(a, b, k');
    assert TwoKeys(a, b).entries[k] == Str(a) && TwoKeys(a, b).entries[k'] == Str(b);
    assert Keeps(EXAMPLE, Str(a), TStr, Str(a)) && Keeps(EXAMPLE, Str(b), TStr, Str(b));
  }

  /** `w` is `v` with every key of every dictionary translated, as when a manifest is validated. */
  predicate IsKeyCast(v: Value, w: Value)
    decreases v
  {
    match v
    case Dict(entries) =>
      && w.Dict?
      && (forall key | key in entries ::
            && key.Name? && Name(Names.Translated(key.text)) in w.entries
            && IsKeyCast(entries[key], w.entries[Name(Names.Translated(key.text))]))
      && (forall key | key in w.entries ::
            exists key' | key' in entries :: key'.Name? && key == Name(Names.Translated(key'.text)))
    case List(items) =>
      w.List? && |w.items| == |items| && forall i | 0 <= i < |items| :: IsKeyCast(items[i], w.items[i])
    case _ => w == v
  }

  /**
   The names in the manifest follow the naming rule: those of attributes translate
   to the attribute, and those that the conversion keeps translate to themselves.
   */
  predicate FollowsNaming(schema: Schema, v: Value, ty: Ty)
    requires Conforms(schema, v, ty)
    decreases v
  {
    v.Null? ||
    match ty
    case TObject => IsKeyCast(v, v)
    case TFloat => v.Float?
    case TDict(values) =>
      forall key | key in v.entries ::
        Names.Translated(key.text) == key.text && FollowsNaming(schema, v.entries[key], values)
    case TList(elements) => forall i | 0 <= i < |v.items| :: FollowsNaming(schema, v.items[i], elements)
    case TModel(name) =>
      forall key | key in v.entries ::
        && key.Name?
        && AttributeOf(schema.models[name].attributes, key) == Name(Names.Translated(key.text))
        && FollowsNaming(schema, v.entries[key], TypeOf(schema.models[name], key))
    case _ => true
  }

  /** Where names follow the rule, the data of the built object is the manifest with its keys translated. */
  lemma {:induction false} RenamingIsKeyCast(schema: Schema, v: Value, ty: Ty, w: Value)
    requires Conforms(schema, v, ty) && FollowsNaming(schema, v, ty)
    requires IsRenaming(schema, v, ty, w)
    ensures IsKeyCast(v, w)
    decreases v
  {
    if !v.Null? {
      match ty
      case TDict(values) =>
        forall key | key in v.entries ensures IsKeyCast(v.entries[key], w.entries[key]) {
          RenamingIsKeyCast(schema, v.entries[key], values, w.entries[key]);
        }
        forall key | key in w.entries
          ensures exists key' | key' in v.entries :: key'.Name? && key == Name(Names.Translated(key'.text))
        {
          assert key in v.entries && key == Name(Names.Translated(key.text));
        }
      case TList(elements) =>
        forall i | 0 <= i < |v.items| ensures IsKeyCast(v.items[i], w.items[i]) {
          RenamingIsKeyCast(schema, v.items[i], elements, w.items[i]);
        }
      case TModel(name) =>
        forall key | key in v.entries
          ensures IsKeyCast(v.entries[key], w.entries[Name(Names.Translated(key.text))])
        {
          RenamingIsKeyCast(schema, v.entries[key], TypeOf(schema.models[name], key),
                            w.entries[Name(Names.Translated(key.text))]);
        }
      case _ =>
    }
  }
}
