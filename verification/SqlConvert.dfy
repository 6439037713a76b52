/**
 How values reach a Postgres database: as text, which the placeholder casts back. `SQLConvertFormat` with its two halves,
 `stringify`, which makes the text, and `createPlaceholder`, which has to fit it.
 */
module SqlConvert {
  import opened Wrappers
  import opened SqlFormat

  /** What is known of a value that has to be converted. */
  datatype Arg<+R> =
    | LiteralArg(kind: string, value: R, plural: bool)
    | ColumnArg(kind: string, value: R, plural: bool, isEnum: bool, isComparison: bool)

  /** The values of the program, the texts of strings and of JSON, and the types of the database. */
  datatype Values<!R> = Values(isNull: R -> bool, isString: R -> bool, elements: R -> Option<seq<R>>, json: R -> string,
                               text: R -> string, isStringType: string -> bool, isNumberType: string -> bool)

  // ----- the texts

  /** `stringify` */
  function Stringify<R>(v: Values<R>, arg: Arg<R>): Option<string> {
    if v.isNull(arg.value) then None
    else if arg.plural then Some(v.json(arg.value))
    else if arg.LiteralArg? && arg.kind == "string" then Some(v.text(arg.value))
    else if arg.ColumnArg? && (arg.isEnum || v.isStringType(arg.kind)) then Some(v.text(arg.value))
    else Some(v.json(arg.value))
  }

  /** Whether a value is sent as it is, and not as JSON. */
  predicate AsText<R>(v: Values<R>, arg: Arg<R>) {
    !arg.plural && if arg.LiteralArg? then arg.kind == "string" else arg.isEnum || v.isStringType(arg.kind)
  }

  /** `SQLConvertFormat`: known again by the raw value, sent as a string. */
  function Converting<R>(v: Values<R>): Config<Arg<R>, R, Option<string>> {
    Config((a: Arg<R>) => a.value, a => Stringify(v, a))
  }

  /** The condition, for arguments: equal values are all sent as text or all as JSON, unless that is the same. */
  ghost predicate Consistent<R>(v: Values<R>, items: seq<Item<Arg<R>>>) {
    forall i, j :: 0 <= i < j < |items| && items[i].Value? && items[j].Value? && items[i].arg.value == items[j].arg.value
      && AsText(v, items[i].arg) != AsText(v, items[j].arg)
      ==> v.isNull(items[i].arg.value) || v.text(items[i].arg.value) == v.json(items[i].arg.value)
  }

  lemma ConvertingReproduces<R>(v: Values<R>, items: seq<Item<Arg<R>>>)
    ensures Reproduces(Converting(v), items) <==> Consistent(v, items)
  {
    SubstitutingReproduces(Converting(v), items);
    if Alike(Converting(v), items) {
      forall i, j | 0 <= i < j < |items| && items[i].Value? && items[j].Value? && items[i].arg.value == items[j].arg.value
          && AsText(v, items[i].arg) != AsText(v, items[j].arg)
        ensures v.isNull(items[i].arg.value) || v.text(items[i].arg.value) == v.json(items[i].arg.value)
      {
        assert Stringify(v, items[i].arg) == Stringify(v, items[j].arg);
      }
    }
  }

  // ----- the placeholders

  /** What a text is cast to; `Collated` is text that is compared character by character. */
  datatype Target = Collated | ToTimestamp(zone: bool) | ToEnum(name: string) | To(name: string)

  /** A placeholder as it is, cast, or as a JSON list whose elements are cast. */
  datatype Cast = AsItIs | One(target: Target) | Each(target: Target)

  const WITHOUT_ZONE := ["date", "timestamp", "timestamp without time zone"]
  const WITH_ZONE := ["timestamptz", "timestamp with time zone"]
  const JSON_TYPES := ["json", "jsonb"]

  /** `createPlaceholder`, apart from the number. */
  function CreatePlaceholder<R>(v: Values<R>, arg: Arg<R>): Cast {
    if arg.kind == "null" then AsItIs
    else if arg.LiteralArg? then
      if v.elements(arg.value).Some? then Each(PgTypeForLiteralType(arg.kind)) else One(PgTypeForLiteralType(arg.kind))
    else if arg.plural then Each(FormatCommon(v, arg))
    else One(FormatCommon(v, arg))
  }

  /** `pgTypeForLiteralType`, with the collation of text. */
  function PgTypeForLiteralType(kind: string): Target {
    if kind == "boolean" then To("boolean") else if kind == "number" then To("double precision") else Collated
  }

  /** `formatCommonToSingularAndPlural` */
  function FormatCommon<R>(v: Values<R>, arg: Arg<R>): Target
    requires arg.ColumnArg?
  {
    if arg.kind in WITHOUT_ZONE then ToTimestamp(false)
    else if arg.kind in WITH_ZONE then ToTimestamp(true)
    else if arg.kind == "uuid" then if arg.isComparison then Collated else To("uuid")
    else if arg.isEnum then if arg.isComparison then Collated else ToEnum(arg.kind)
    else if v.isStringType(arg.kind) then if arg.isComparison then Collated else To(arg.kind)
    else if v.isNumberType(arg.kind) && arg.isComparison then To("double precision")
    else To(arg.kind)
  }

  // ----- the database

  datatype DbType = TextType | ColumnType(name: string) | EnumType(name: string)

  /** How the database casts a text and takes a JSON list apart, and what a value of the program is in a type of the database. */
  datatype Database<!R, !D> = Database(cast: (Target, string) -> D, elements: string -> seq<Option<string>>,
                                       convert: (DbType, R) -> D)

  /** What the database gets from a placeholder. */
  datatype Got<+D> = Null | Single(value: D) | List(values: seq<Option<D>>)

  /** A cast makes values of a type; times are cast from milliseconds. */
  predicate Makes(target: Target, t: DbType) {
    match target
    case Collated => t == TextType
    case ToTimestamp(zone) => t.ColumnType? && t.name in (if zone then WITH_ZONE else WITHOUT_ZONE)
    case ToEnum(name) => t == EnumType(name)
    case To(name) => t == ColumnType(name) && name !in WITHOUT_ZONE && name !in WITH_ZONE
  }

  predicate TakesText<R>(v: Values<R>, t: DbType) {
    match t
    case TextType => true
    case EnumType(_) => true
    case ColumnType(name) => v.isStringType(name)
  }

  predicate TakesJson(t: DbType) { t.ColumnType? && t.name in JSON_TYPES }

  /** The text of a list element: strings have no quotes then. */
  function ElementText<R>(v: Values<R>, x: R): Option<string> {
    if v.isNull(x) then None else if v.isString(x) then Some(v.text(x)) else Some(v.json(x))
  }

  function ElementTexts<R>(v: Values<R>, xs: seq<R>): (r: seq<Option<string>>)
    ensures |r| == |xs| && forall i :: 0 <= i < |xs| ==> r[i] == ElementText(v, xs[i])
  {
    seq(|xs|, i requires 0 <= i < |xs| => ElementText(v, xs[i]))
  }

  /**
   Types that take text read strings from their text, all others read values from their JSON, and neither takes the one for the
   other, because JSON has quotes around a string.
   */
  ghost predicate ReadsTexts<R(!new), D>(db: Database<R, D>, v: Values<R>) {
    && (forall x :: v.isString(x) ==> !v.isNull(x))
    && forall target, t, x :: Makes(target, t) && !v.isNull(x) ==> ReadsText(db, v, target, t, x)
  }

  ghost predicate ReadsText<R, D>(db: Database<R, D>, v: Values<R>, target: Target, t: DbType, x: R) {
    && (v.isString(x) && TakesText(v, t) ==>
          db.cast(target, v.text(x)) == db.convert(t, x) && db.cast(target, v.json(x)) != db.convert(t, x))
    && (!TakesText(v, t) && (v.isString(x) ==> TakesJson(t)) ==> db.cast(target, v.json(x)) == db.convert(t, x))
    && (v.isString(x) && TakesJson(t) ==> db.cast(target, v.text(x)) != db.convert(t, x))
  }

  ghost predicate ReadsLists<R(!new), D>(db: Database<R, D>, v: Values<R>) {
    forall x :: v.elements(x).Some? ==>
      !v.isNull(x) && !v.isString(x) && db.elements(v.json(x)) == ElementTexts(v, v.elements(x).value)
  }

  /** What has to be known of the types. */
  ghost predicate KnowsTypes<R>(v: Values<R>) {
    && v.isStringType("uuid") && !v.isStringType("boolean") && !v.isStringType("double precision")
    && forall name :: name in WITHOUT_ZONE || name in WITH_ZONE || name in JSON_TYPES ==> !v.isStringType(name) && !v.isNumberType(name)
  }

  ghost predicate Understands<R(!new), D>(db: Database<R, D>, v: Values<R>) {
    ReadsTexts(db, v) && ReadsLists(db, v) && KnowsTypes(v)
  }

  function Texts<R, D>(db: Database<R, D>, target: Target, texts: seq<Option<string>>): (r: seq<Option<D>>)
    ensures |r| == |texts|
    ensures forall i :: 0 <= i < |texts| ==> r[i] == if texts[i].None? then None else Some(db.cast(target, texts[i].value))
  {
    seq(|texts|, i requires 0 <= i < |texts| => if texts[i].None? then None else Some(db.cast(target, texts[i].value)))
  }

  /** What the database reads; it finds no elements in null, so that the list of them is empty. */
  function Reads<R, D>(db: Database<R, D>, cast: Cast, sent: Option<string>): Option<Got<D>> {
    match cast
    case AsItIs => if sent.None? then Some(Null) else None
    case One(target) => Some(if sent.None? then Null else Single(db.cast(target, sent.value)))
    case Each(target) => Some(List(if sent.None? then [] else Texts(db, target, db.elements(sent.value))))
  }

  // ----- what is meant

  /** The type that a value is meant to have: that of its column, but a comparison is wider. */
  ghost function Meant<R>(v: Values<R>, arg: Arg<R>): DbType {
    match arg
    case LiteralArg(kind, _, _) =>
      if kind == "string" then TextType else if kind == "number" then ColumnType("double precision") else ColumnType("boolean")
    case ColumnArg(kind, _, _, isEnum, isComparison) =>
      if isComparison && (isEnum || v.isStringType(kind)) then TextType
      else if isEnum then EnumType(kind)
      else if isComparison && v.isNumberType(kind) then ColumnType("double precision")
      else ColumnType(kind)
  }

  ghost predicate Converted<R, D>(db: Database<R, D>, t: DbType, v: Values<R>, x: R, d: Option<D>) {
    if v.isNull(x) then d.None? else d == Some(db.convert(t, x))
  }

  /** The database has got the value: null, the value of the type, or the list of these. */
  ghost predicate Arrives<R, D>(db: Database<R, D>, v: Values<R>, arg: Arg<R>, got: Option<Got<D>>) {
    if v.isNull(arg.value) then got == Some(Null)
    else if arg.plural then
      && got.Some? && got.value.List? && v.elements(arg.value).Some?
      && var xs := v.elements(arg.value).value;
         && |got.value.values| == |xs|
         && forall i :: 0 <= i < |xs| ==> Converted(db, Meant(v, arg), v, xs[i], got.value.values[i])
    else got == Some(Single(db.convert(Meant(v, arg), arg.value)))
  }

  /** A value fits a type: strings and nothing else where the type takes text, strings elsewhere only in JSON. */
  predicate Fits<R>(v: Values<R>, t: DbType, x: R) {
    !v.isNull(x) ==> if TakesText(v, t) then v.isString(x) else v.isString(x) ==> TakesJson(t)
  }

  ghost predicate FitsType<R>(v: Values<R>, arg: Arg<R>) {
    !v.isNull(arg.value) ==>
      if arg.plural then
        && v.elements(arg.value).Some?
        && forall i :: 0 <= i < |v.elements(arg.value).value| ==> Fits(v, Meant(v, arg), v.elements(arg.value).value[i])
      else Fits(v, Meant(v, arg), arg.value)
  }

  /** What the functions that make arguments see to, and the schema: the value is of its type, or a list of such if plural. */
  ghost predicate WellTyped<R>(v: Values<R>, arg: Arg<R>) {
    && FitsType(v, arg)
    && (arg.kind == "null" <==> arg.LiteralArg? && v.isNull(arg.value))
    && match arg
       case LiteralArg(kind, value, plural) =>
         kind in ["null", "boolean", "number", "string"] && (plural <==> v.elements(value).Some?)
       case ColumnArg(kind, _, _, isEnum, _) => isEnum ==> kind !in WITHOUT_ZONE && kind !in WITH_ZONE && kind != "uuid"
  }

  /** A list of JSON with a string in it. */
  ghost predicate HasString<R>(v: Values<R>, xs: seq<R>) {
    exists i :: 0 <= i < |xs| && v.isString(xs[i])
  }

  /** What does not arrive: null as a list, and a list of JSON with a string in it. */
  ghost predicate Lost<R>(v: Values<R>, arg: Arg<R>)
    requires WellTyped(v, arg)
  {
    arg.plural && (v.isNull(arg.value) || (TakesJson(Meant(v, arg)) && HasString(v, v.elements(arg.value).value)))
  }

  // ----- one value

  /** The placeholder casts to the type that is meant. */
  lemma CastsToMeant<R>(v: Values<R>, arg: Arg<R>)
    requires WellTyped(v, arg) && KnowsTypes(v) && arg.kind != "null"
    ensures !CreatePlaceholder(v, arg).AsItIs? && Makes(CreatePlaceholder(v, arg).target, Meant(v, arg))
    ensures CreatePlaceholder(v, arg).Each? <==> arg.plural
  {
  }

  /** The type takes text exactly if the value is sent as text. */
  lemma SentAsTaken<R>(v: Values<R>, arg: Arg<R>)
    requires WellTyped(v, arg) && KnowsTypes(v) && !arg.plural && arg.kind != "null"
    ensures TakesText(v, Meant(v, arg)) <==> AsText(v, arg)
  {
  }

  /** A value arrives exactly if it is none of those. */
  lemma ArrivesExactly<R(!new), D>(db: Database<R, D>, v: Values<R>, arg: Arg<R>)
    requires Understands(db, v) && WellTyped(v, arg)
    ensures Arrives(db, v, arg, Reads(db, CreatePlaceholder(v, arg), Stringify(v, arg))) <==> !Lost(v, arg)
  {
    hide ReadsTexts, KnowsTypes, WellTyped, FitsType, CreatePlaceholder, Texts, ElementTexts, Meant, TakesJson, TakesText, HasString;
    NullIsLiteral(v, arg);
    if arg.kind != "null" {
      CastsToMeant(v, arg);
      if !v.isNull(arg.value) && arg.plural { ListArrives(db, v, arg); }
      if !v.isNull(arg.value) && !arg.plural { SingleArrives(db, v, arg); }
    }
  }

  lemma NullIsLiteral<R(!new)>(v: Values<R>, arg: Arg<R>)
    requires WellTyped(v, arg)
    ensures arg.kind == "null" ==> v.isNull(arg.value) && CreatePlaceholder(v, arg) == AsItIs
    ensures arg.kind == "null" ==> (arg.plural <==> v.elements(arg.value).Some?)
  {
  }

  lemma SingleArrives<R(!new), D>(db: Database<R, D>, v: Values<R>, arg: Arg<R>)
    requires Understands(db, v) && WellTyped(v, arg) && !arg.plural && !v.isNull(arg.value)
    ensures Arrives(db, v, arg, Reads(db, CreatePlaceholder(v, arg), Stringify(v, arg)))
  {
    hide CreatePlaceholder, Texts, ElementTexts, TakesText, TakesJson, Meant;
    CastsToMeant(v, arg);
    SentAsTaken(v, arg);
  }

  lemma ListArrives<R(!new), D>(db: Database<R, D>, v: Values<R>, arg: Arg<R>)
    requires Understands(db, v) && WellTyped(v, arg) && arg.plural && !v.isNull(arg.value)
    ensures Arrives(db, v, arg, Reads(db, CreatePlaceholder(v, arg), Stringify(v, arg)))
         <==> !(TakesJson(Meant(v, arg)) && HasString(v, v.elements(arg.value).value))
  {
    hide CreatePlaceholder, TakesText, TakesJson, Meant, ReadsTexts;
    CastsToMeant(v, arg);
    var xs, target, t := v.elements(arg.value).value, CreatePlaceholder(v, arg).target, Meant(v, arg);
    forall i | 0 <= i < |xs|
      ensures Converted(db, t, v, xs[i], Texts(db, target, ElementTexts(v, xs))[i]) <==> !(TakesJson(t) && v.isString(xs[i]))
    {
      ElementArrives(db, v, target, t, xs[i]);
    }
  }

  lemma ElementArrives<R(!new), D>(db: Database<R, D>, v: Values<R>, target: Target, t: DbType, x: R)
    requires ReadsTexts(db, v) && KnowsTypes(v) && Makes(target, t) && Fits(v, t, x)
    ensures var text := ElementText(v, x);
      Converted(db, t, v, x, if text.None? then None else Some(db.cast(target, text.value)))
      <==> !(TakesJson(t) && v.isString(x))
  {
  }

  // ----- all values of a query

  /** Every value arrives, by way of its placeholder and the list of values that are sent. */
  ghost predicate AllArrive<R, D>(db: Database<R, D>, v: Values<R>, items: seq<Item<Arg<R>>>, text: seq<Piece<Arg<R>>>,
                                  values: seq<Option<string>>)
    requires Formatted(Converting(v), items, text, values)
  {
    forall i :: 0 <= i < |items| && items[i].Value? ==> Reaches(db, v, text[i], values)
  }

  ghost predicate Reaches<R, D>(db: Database<R, D>, v: Values<R>, piece: Piece<Arg<R>>, values: seq<Option<string>>)
    requires piece.Placeholder? && 1 <= piece.number <= |values|
  {
    Arrives(db, v, piece.arg, Reads(db, CreatePlaceholder(v, piece.arg), values[piece.number - 1]))
  }

  ghost predicate AllWellTyped<R>(v: Values<R>, items: seq<Item<Arg<R>>>) {
    forall i :: 0 <= i < |items| && items[i].Value? ==> WellTyped(v, items[i].arg)
  }

  ghost predicate NoneLost<R>(v: Values<R>, items: seq<Item<Arg<R>>>)
    requires AllWellTyped(v, items)
  {
    forall i :: 0 <= i < |items| && items[i].Value? ==> !Lost(v, items[i].arg)
  }

  /** No string is sent both as text and as JSON. */
  ghost predicate Unmixed<R>(v: Values<R>, items: seq<Item<Arg<R>>>) {
    forall i, j :: 0 <= i < |items| && 0 <= j < |items| && items[i].Value? && items[j].Value?
      && items[i].arg.value == items[j].arg.value && v.isString(items[i].arg.value)
      ==> (AsText(v, items[i].arg) <==> AsText(v, items[j].arg))
  }

  /** The first of the values with the same key. */
  lemma {:induction false} TheFirst<A, K, S>(c: Config<A, K, S>, items: seq<Item<A>>, i: nat) returns (f: nat)
    requires i < |items| && items[i].Value?
    ensures f <= i && First(c, items, f) && c.key(items[f].arg) == c.key(items[i].arg)
  {
    if j :| 0 <= j < i && items[j].Value? && c.key(items[j].arg) == c.key(items[i].arg) {
      f := TheFirst(c, items, j);
    } else {
      f := i;
    }
  }

  /** Only strings can be sent in two ways. */
  lemma SentAlike<R(!new)>(v: Values<R>, a: Arg<R>, b: Arg<R>)
    requires WellTyped(v, a) && WellTyped(v, b) && KnowsTypes(v) && a.value == b.value
    requires v.isString(a.value) ==> (AsText(v, a) <==> AsText(v, b))
    requires forall x :: v.elements(x).Some? ==> !v.isString(x)
    ensures Stringify(v, a) == Stringify(v, b)
  {
  }

  /** A string that is sent in two ways: what is sent is wrong for one of the two. */
  lemma MixedUp<R(!new), D>(db: Database<R, D>, v: Values<R>, a: Arg<R>, b: Arg<R>, sent: Option<string>)
    requires Understands(db, v) && WellTyped(v, a) && WellTyped(v, b) && a.value == b.value && v.isString(a.value)
    requires AsText(v, a) && !AsText(v, b) && sent.Some? && (sent.value == v.text(a.value) || sent.value == v.json(a.value))
    ensures Arrives(db, v, a, Reads(db, CreatePlaceholder(v, a), sent)) ==>
      !Arrives(db, v, b, Reads(db, CreatePlaceholder(v, b), sent))
  {
    hide CreatePlaceholder, Meant, TakesText, TakesJson, AsText;
    CastsToMeant(v, a);
    CastsToMeant(v, b);
    SentAsTaken(v, a);
    SentAsTaken(v, b);
  }

  /** What is sent for a value: the string of the first one that is equal. */
  lemma SentFor<R>(v: Values<R>, items: seq<Item<Arg<R>>>, text: seq<Piece<Arg<R>>>, values: seq<Option<string>>, i: nat)
    returns (f: nat)
    requires Formatted(Converting(v), items, text, values) && i < |items| && items[i].Value?
    ensures |text| == |items| && f < |items| && items[f].Value? && items[f].arg.value == items[i].arg.value
    ensures text[i].Placeholder? && text[i].arg == items[i].arg && 1 <= text[i].number <= |values|
    ensures values[text[i].number - 1] == Stringify(v, items[f].arg)
    ensures forall j :: 0 <= j < |items| && items[j].Value? && items[j].arg.value == items[i].arg.value ==>
              text[j].Placeholder? && text[j].number == text[i].number
  {
    hide Stringify;
    f := TheFirst(Converting(v), items, i);
  }

  lemma OneReaches<R(!new), D>(db: Database<R, D>, v: Values<R>, items: seq<Item<Arg<R>>>, text: seq<Piece<Arg<R>>>,
                               values: seq<Option<string>>, i: nat)
    requires Understands(db, v) && AllWellTyped(v, items) && Formatted(Converting(v), items, text, values)
    requires Unmixed(v, items) && i < |items| && items[i].Value?
    ensures Reaches(db, v, text[i], values) <==> !Lost(v, items[i].arg)
  {
    hide WellTyped, Arrives, Reads, CreatePlaceholder, AsText, Lost, Stringify, ReadsTexts, KnowsTypes, Formatted;
    var f := SentFor(v, items, text, values, i);
    SentAlike(v, items[i].arg, items[f].arg);
    ArrivesExactly(db, v, items[i].arg);
  }

  lemma Mixed<R(!new), D>(db: Database<R, D>, v: Values<R>, items: seq<Item<Arg<R>>>, text: seq<Piece<Arg<R>>>,
                          values: seq<Option<string>>)
    requires Understands(db, v) && AllWellTyped(v, items) && Formatted(Converting(v), items, text, values)
    requires !Unmixed(v, items)
    ensures !AllArrive(db, v, items, text, values)
  {
    hide WellTyped, Arrives, Reads, CreatePlaceholder, AsText, ReadsLists, KnowsTypes, Formatted;
    var i, j :| 0 <= i < |items| && 0 <= j < |items| && items[i].Value? && items[j].Value?
      && items[i].arg.value == items[j].arg.value && v.isString(items[i].arg.value)
      && AsText(v, items[i].arg) && !AsText(v, items[j].arg);
    var f := SentFor(v, items, text, values, i);
    var g := SentFor(v, items, text, values, j);
    MixedUp(db, v, items[i].arg, items[j].arg, values[text[i].number - 1]);
    assert Reaches(db, v, text[i], values) ==> !Reaches(db, v, text[j], values);
  }

  /** All values of a query arrive exactly if none is lost and no string is sent in two ways. */
  lemma QueryArrivesExactly<R(!new), D>(db: Database<R, D>, v: Values<R>, items: seq<Item<Arg<R>>>, text: seq<Piece<Arg<R>>>,
                                        values: seq<Option<string>>)
    requires Understands(db, v) && AllWellTyped(v, items) && Formatted(Converting(v), items, text, values)
    ensures AllArrive(db, v, items, text, values) <==> NoneLost(v, items) && Unmixed(v, items)
  {
    hide Understands, WellTyped, AsText, Lost, Stringify, Reaches;
    if Unmixed(v, items) {
      forall i | 0 <= i < |items| && items[i].Value?
        ensures Reaches(db, v, text[i], values) <==> !Lost(v, items[i].arg)
      {
        OneReaches(db, v, items, text, values, i);
      }
    } else {
      Mixed(db, v, items, text, values);
    }
  }

  // ----- inputs that do not arrive

  /** The same string in a text column and in a JSON column: the JSON column is sent text that is not JSON. */
  lemma SameStringTwice<R>(v: Values<R>, value: R)
    requires !v.isNull(value) && v.text(value) != v.json(value) && v.isStringType("text") && !v.isStringType("json")
    ensures !Reproduces(Converting(v), [Value(ColumnArg("text", value, false, false, false)),
                                        Value(ColumnArg("json", value, false, false, false))])
  {
    var items := [Value(ColumnArg("text", value, false, false, false)), Value(ColumnArg("json", value, false, false, false))];
    ConvertingReproduces(v, items);
    assert items[0].arg.value == items[1].arg.value && AsText(v, items[0].arg) != AsText(v, items[1].arg);
  }

  /** Null, strings, and lists of one string. */
  datatype Simple = Nothing | Str(s: string) | ListOf(s: string)

  /** A letter before each text stands for the quotes and brackets of JSON. */
  ghost function SimpleValues(): Values<Simple> {
    Values((x: Simple) => x.Nothing?, (x: Simple) => x.Str?, (x: Simple) => if x.ListOf? then Some([Str(x.s)]) else None,
           (x: Simple) => if x.Nothing? then "n" else if x.Str? then "s" + x.s else "l" + x.s,
           (x: Simple) => if x.Str? then x.s else "",
           (name: string) => name == "text" || name == "uuid", (name: string) => name == "integer")
  }

  ghost function Parsed(text: string): Simple {
    if text == "" || text[0] == 'n' then Nothing else if text[0] == 's' then Str(text[1..]) else ListOf(text[1..])
  }

  ghost function SimpleDatabase(): Database<Simple, Simple> {
    Database((target: Target, text: string) =>
               if target.ToTimestamp? || (target.To? && target.name != "text" && target.name != "uuid") then Parsed(text)
               else Str(text),
             (text: string) => if text != "" && text[0] == 'l' then [Some(text[1..])] else [],
             (t: DbType, x: Simple) => x)
  }

  /** Such a database can be; null for an array column, and an array of JSON with a string in it, do not arrive there. */
  lemma DoNotArrive()
    ensures Understands(SimpleDatabase(), SimpleValues())
    ensures var a := ColumnArg("text", Nothing, true, false, false);
      WellTyped(SimpleValues(), a) && Lost(SimpleValues(), a)
    ensures var a := ColumnArg("jsonb", ListOf("x"), true, false, false);
      WellTyped(SimpleValues(), a) && Lost(SimpleValues(), a)
  {
    var v, db := SimpleValues(), SimpleDatabase();
    SimpleReads();
    assert ReadsLists(db, v) by {
      forall x: Simple | x.ListOf? ensures db.elements(v.json(x)) == ElementTexts(v, [Str(x.s)]) {
        assert ("l" + x.s)[1..] == x.s;
      }
    }
    assert HasString(v, [Str("x")]) by { assert v.isString([Str("x")][0]); }
  }

  lemma SimpleReads()
    ensures ReadsTexts(SimpleDatabase(), SimpleValues())
  {
    hide ReadsText, Makes;
    forall target, t, x | Makes(target, t) && !SimpleValues().isNull(x)
      ensures ReadsText(SimpleDatabase(), SimpleValues(), target, t, x)
    {
      SimpleReadsText(target, t, x);
    }
  }

  lemma SimpleReadsText(target: Target, t: DbType, x: Simple)
    requires Makes(target, t) && !x.Nothing?
    ensures ReadsText(SimpleDatabase(), SimpleValues(), target, t, x)
  {
    SimpleParses(x);
  }

  lemma SimpleParses(x: Simple)
    requires !x.Nothing?
    ensures Parsed(SimpleValues().json(x)) == x && (x.Str? ==> Parsed(x.s) != x && SimpleValues().json(x) != x.s)
  {
    assert SimpleValues().json(x)[1..] == x.s;
    assert |SimpleValues().json(x)| == |x.s| + 1;
  }
}
