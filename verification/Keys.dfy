/** Dynamic column values, and the keys under which rows are indexed and joined (view/key.go). */
module Keys {

  datatype Option<+T> = None | Some(value: T)

  /** What a database sees of a value: no Go type, no pointer. */
  datatype Content = Numeric(r: real) | Textual(s: string) | Special(sort: nat, n: int)

  /** A variable that a pointer field points to: each row that is read has its own ones, by the view that reads it. */
  datatype Target = Target(view: nat, at: nat, content: Content)

  /**
   A value found in a row field, tagged with its Go dynamic type. Go compares values with one another by type and
   content, and pointers by the variable they point to.
   */
  datatype Value =
    | Nil
    | Int(n: int) | Int64(n: int) | Int32(n: int) | Int16(n: int)
    | IntPtr(p: Option<int>) | Int64Ptr(p: Option<int>) | Int32Ptr(p: Option<int>) | Int16Ptr(p: Option<int>)
    | Str(s: string)
    | Atom(kind: nat, content: Content)  // any other comparable type, such as `int8`, `uint` or `float64`
    | Ref(kind: nat, target: Option<Target>)  // a pointer to any other type, such as `*string` or `*float64`
    | Ints(ns: seq<int>) | Int64s(ns: seq<int>) | Int64Ptrs(ps: seq<Option<int>>) | Strs(ss: seq<string>)

  /** What a database compares: NULL equals nothing. */
  datatype SqlValue = SqlNull | SqlSome(content: Content) | SqlList

  function OfPtr(p: Option<int>): Value {
    if p.None? then Nil else Int(p.value)
  }

  function NormalizeKey(v: Value): Value {
    match v
    case Int64Ptr(p) => OfPtr(p)
    case Int32Ptr(p) => OfPtr(p)
    case Int16Ptr(p) => OfPtr(p)
    case Int32(n) => Int(n)
    case Int64(n) => Int(n)
    case Int16(n) => Int(n)
    case IntPtr(p) => OfPtr(p)
    case _ => v
  }

  function OfNumber(n: int): SqlValue {
    SqlSome(Numeric(n as real))
  }

  function OfNumberPtr(p: Option<int>): SqlValue {
    if p.None? then SqlNull else OfNumber(p.value)
  }

  function ToSql(v: Value): SqlValue {
    match v
    case Nil => SqlNull
    case Int(n) => OfNumber(n)
    case Int64(n) => OfNumber(n)
    case Int32(n) => OfNumber(n)
    case Int16(n) => OfNumber(n)
    case IntPtr(p) => OfNumberPtr(p)
    case Int64Ptr(p) => OfNumberPtr(p)
    case Int32Ptr(p) => OfNumberPtr(p)
    case Int16Ptr(p) => OfNumberPtr(p)
    case Str(s) => SqlSome(Textual(s))
    case Atom(_, content) => SqlSome(content)
    case Ref(_, target) => if target.None? then SqlNull else SqlSome(target.value.content)
    case _ => SqlList
  }

  predicate IsNull(v: Value) {
    ToSql(v) == SqlNull
  }

  predicate IsScalar(v: Value) {
    !v.Ints? && !v.Int64s? && !v.Int64Ptrs? && !v.Strs?
  }

  /**
   Normalizing twice changes nothing, and it never changes what the database would compare. It makes NULL nil, but not
   that of a pointer which it does not look into.
   */
  lemma NormalizeKeeps(v: Value)
    ensures NormalizeKey(NormalizeKey(v)) == NormalizeKey(v)
    ensures ToSql(NormalizeKey(v)) == ToSql(v)
    ensures NormalizeKey(v) == Nil <==> IsNull(v) && !v.Ref?
  {}

  // ----- where memory and database agree -----

  /** What the contents of a type are. */
  datatype Domain = Numbers | Texts | Specials(sort: nat)

  function DomainOf(content: Content): Domain {
    match content
    case Numeric(_) => Numbers
    case Textual(_) => Texts
    case Special(sort, _) => Specials(sort)
  }

  /** The type of a key column: integers that are normalized, text, or any other type or pointer that is left alone. */
  datatype GoType = Integer | String | AtomType(kind: nat, domain: Domain) | RefType(kind: nat, domain: Domain)

  predicate HasType(v: Value, t: GoType) {
    match t
    case Integer =>
      v.Nil? || v.Int? || v.Int64? || v.Int32? || v.Int16? || v.IntPtr? || v.Int64Ptr? || v.Int32Ptr? || v.Int16Ptr?
    case String => v.Str?
    case AtomType(kind, domain) => v.Atom? && v.kind == kind && DomainOf(v.content) == domain
    case RefType(kind, domain) =>
      v.Ref? && v.kind == kind && (v.target.Some? ==> DomainOf(v.target.value.content) == domain)
  }

  function DomainOfType(t: GoType): Domain {
    match t
    case Integer => Numbers
    case String => Texts
    case AtomType(_, domain) => domain
    case RefType(_, domain) => domain
  }

  /** The values are not pointers to one variable. */
  predicate Unaliased(a: Value, b: Value) {
    a.Ref? && b.Ref? && a.target.Some? && b.target.Some? ==>
      a.target.value.view != b.target.value.view || a.target.value.at != b.target.value.at
  }

  /** Go and the database agree on whether two keys are equal. */
  predicate Agree(a: Value, b: Value) {
    NormalizeKey(a) == NormalizeKey(b) <==> ToSql(a) == ToSql(b)
  }

  /** Keys of these types are of one type that is compared by content, or can never be equal. */
  predicate Comparable(p: GoType, c: GoType) {
    (p == c && !p.RefType?) || DomainOfType(p) != DomainOfType(c)
  }

  lemma ComparableAgree(p: GoType, c: GoType, a: Value, b: Value)
    requires Comparable(p, c) && HasType(a, p) && HasType(b, c) && !IsNull(a) && !IsNull(b)
    ensures Agree(a, b)
  {}

  /** A content of a domain, as a value of a type. */
  function Sample(domain: Domain): Content {
    match domain
    case Numbers => Numeric(0.0)
    case Texts => Textual("")
    case Specials(sort) => Special(sort, 0)
  }

  function SampleOf(t: GoType, view: nat): (v: Value)
    ensures HasType(v, t) && ToSql(v) == SqlSome(Sample(DomainOfType(t))) && IsScalar(v)
  {
    match t
    case Integer => Int(0)
    case String => Str("")
    case AtomType(kind, domain) => Atom(kind, Sample(domain))
    case RefType(kind, domain) => Ref(kind, Some(Target(view, 0, Sample(domain))))
  }

  lemma SamplesDisagree(p: GoType, c: GoType)
    requires !Comparable(p, c)
    ensures Unaliased(SampleOf(p, 0), SampleOf(c, 1)) && !Agree(SampleOf(p, 0), SampleOf(c, 1))
  {}

  /**
   Whatever the keys of two columns, joining them in memory and in the database is the same exactly when the columns
   have one type other than a pointer that is left alone, or types without a common content.
   */
  lemma KeysAgreeExactlyWhen(p: GoType, c: GoType)
    ensures (forall a, b ::
               HasType(a, p) && HasType(b, c) && !IsNull(a) && !IsNull(b) && Unaliased(a, b) ==> Agree(a, b))
            <==> Comparable(p, c)
  {
    if Comparable(p, c) {
      forall a, b | HasType(a, p) && HasType(b, c) && !IsNull(a) && !IsNull(b) && Unaliased(a, b)
        ensures Agree(a, b)
      {
        ComparableAgree(p, c, a, b);
      }
    } else {
      SamplesDisagree(p, c);
    }
  }

  /** Two pointers to one text, such as the fields of two nullable text columns: equal to the database and not to Go. */
  lemma EqualTextsApart(kind: nat, text: string, one: Target, two: Target)
    requires one.content == two.content == Textual(text) && one.at != two.at
    ensures ToSql(Ref(kind, Some(one))) == ToSql(Ref(kind, Some(two)))
    ensures NormalizeKey(Ref(kind, Some(one))) != NormalizeKey(Ref(kind, Some(two)))
    ensures NormalizeKey(Ref(kind, None)) == NormalizeKey(Ref(kind, None)) != Nil && IsNull(Ref(kind, None))
  {}

  // ----- several keys in one field -----

  /**
   The keys under which the switch of the indexing code files one parent field: several for a slice field. It
   dereferences `*int64` fields and elements without a check, and panics on a nil one, for which there are no keys here.
   */
  function Indexed(v: Value): Option<seq<Value>> {
    match v
    case Ints(ns) => Some(seq(|ns|, i requires 0 <= i < |ns| => Int(ns[i])))
    case Int64Ptrs(ps) =>
      if Option<int>.None in ps then None else Some(seq(|ps|, i requires 0 <= i < |ps| => OfPtr(ps[i])))
    case Int64s(ns) => Some(seq(|ns|, i requires 0 <= i < |ns| => Int(ns[i])))
    case Int32(n) => Some([Int(n)])
    case Int64Ptr(p) => if p.None? then None else Some([OfPtr(p)])
    case Strs(ss) => Some(seq(|ss|, i requires 0 <= i < |ss| => Str(ss[i])))
    case _ => Some([NormalizeKey(v)])
  }

  function IndexKeys(v: Value): seq<Value> {
    if Indexed(v).None? then [] else Indexed(v).value
  }

  /** The field is no nil `*int64`, and holds none. */
  predicate Indexable(v: Value) {
    && v != Int64Ptr(None)
    && (v.Int64Ptrs? ==> forall i :: 0 <= i < |v.ps| ==> v.ps[i].Some?)
  }

  lemma PanicsExactlyWhen(v: Value)
    ensures Indexed(v).None? <==> !Indexable(v)
  {}

  /** The values that one parent field contributes to the `IN` list of a child query. */
  function PlaceholdersOf(v: Value): seq<Value> {
    match v
    case Int64Ptrs(ps) => seq(|ps|, i requires 0 <= i < |ps| => OfPtr(ps[i]))
    case Int64s(ns) => seq(|ns|, i requires 0 <= i < |ns| => Int(ns[i]))
    case Ints(ns) => seq(|ns|, i requires 0 <= i < |ns| => Int(ns[i]))
    case Strs(ss) => seq(|ss|, i requires 0 <= i < |ss| => Str(ss[i]))
    case _ => [v]
  }

  /** Two independent type switches of the program, indexing and placeholder collection, name the same keys. */
  lemma PlaceholdersMatchIndex(v: Value)
    ensures Indexable(v) ==> |PlaceholdersOf(v)| == |IndexKeys(v)|
    ensures IndexKeys(v) != [] ==> Indexable(v)
    ensures forall i :: 0 <= i < |IndexKeys(v)| ==> NormalizeKey(PlaceholdersOf(v)[i]) == IndexKeys(v)[i]
    ensures forall k :: k in IndexKeys(v) ==> IsScalar(k) && NormalizeKey(k) == k
  {}
}
