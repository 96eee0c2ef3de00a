/** `mapRecordToApiRow` of `dbf.worker.ts`: one decoded record becomes the
    fourteen columns of the product-import CSV, each column read through a
    prioritised list of candidate field names. */
module ApiMapper {
  import opened Base
  import opened Text
  import opened Slugs
  import opened JsValues
  import opened KeyLookup

  /** The column names of the product-import CSV, in order. */
  const ApiHeaders: seq<string> := [
    "sku", "name", "description", "regular_price", "sale_price", "special_price",
    "category_slug", "image_url", "video_url", "weight", "dimension_length",
    "dimension_width", "dimension_height", "is_active"]

  const SkuFields: seq<string> := [
    "STCODIGO", "stcodigo", "CODIGO", "codigo", "COD", "cod", "SKU", "sku",
    "PRODUCT_CODE", "product_code"]

  const NameFields: seq<string> := [
    "STDESCRIP", "stdescrip", "DESCRIP", "descrip", "DESCRIPCION", "descripcion",
    "NOMBRE", "nombre", "NAME", "name", "PRODUCT_NAME"]

  const DetailFields: seq<string> := [
    "STDETALLE", "stdetalle", "DETALLE", "detalle", "STDESCRIP", "stdescrip",
    "DESCRIPCION_LARGA", "DESCRIPTION"]

  const RegularFields: seq<string> := [
    "STPRECUNI2", "stprecuni2", "PRECUNI2", "precuni2", "PRECIO", "precio",
    "PRECIO_VENTA", "precio_venta", "PRICE", "price", "REGULAR_PRICE", "STPRECIO",
    "stprecio", "PRECIOVTA", "preciovta"]

  const SpecialFields: seq<string> := [
    "STPRECUNI1", "stprecuni1", "PRECUNI1", "precuni1", "COSTO", "costo", "COST",
    "PRECIO_ESPECIAL"]

  const FamilyNameFields: seq<string> := [
    "STNOMFAM", "stnomfam", "NOMFAM", "nomfam", "FAMILIA_NOMBRE", "CATEGORY_NAME",
    "CATEGORIA", "categoria"]

  const FamilyCodeFields: seq<string> := [
    "STFAMILIA", "stfamilia", "FAMILIA", "familia", "CATEGORY", "category", "CAT", "cat"]

  const DeletionFields: seq<string> := ["STBORRAR", "stborrar", "BORRAR", "borrar", "DELETED", "deleted"]

  /** `a ?? b ?? ...` over tri-state flags: the first one that is not null. */
  function FirstFlag(flags: seq<Option<bool>>): (r: Option<bool>)
  {
    if |flags| == 0 then None
    else if flags[0].Some? then flags[0]
    else FirstFlag(flags[1..])
  }

  lemma {:induction false} FirstFlagIsFirstSome(flags: seq<Option<bool>>, i: nat)
    requires i < |flags| && flags[i].Some?
    requires forall j :: 0 <= j < i ==> flags[j].None?
    ensures FirstFlag(flags) == flags[i]
  {
    if i > 0 {
      FirstFlagIsFirstSome(flags[1..], i - 1);
    }
  }

  lemma {:induction false} FirstFlagNone(flags: seq<Option<bool>>)
    ensures FirstFlag(flags).None? <==> forall j :: 0 <= j < |flags| ==> flags[j].None?
  {
    if |flags| > 0 {
      FirstFlagNone(flags[1..]);
      assert forall j :: 1 <= j < |flags| ==> flags[j] == flags[1..][j - 1];
    }
  }

  /** The tri-state flags read from the candidate fields, in the order the chain consults them. */
  function Flags(rec: Record, km: KeyMap, fields: seq<string>): (flags: seq<Option<bool>>)
    ensures |flags| == |fields|
  {
    if |fields| == 0 then [] else [ParseBoolish(GetValueByField(rec, km, fields[0]))] + Flags(rec, km, fields[1..])
  }

  lemma {:induction false} FlagAt(rec: Record, km: KeyMap, fields: seq<string>, i: nat)
    requires i < |fields|
    ensures Flags(rec, km, fields)[i] == ParseBoolish(GetValueByField(rec, km, fields[i]))
  {
    if i > 0 {
      FlagAt(rec, km, fields[1..], i - 1);
    }
  }

  /** The deletion flags a record offers. */
  function DeletionFlags(rec: Record, km: KeyMap): seq<Option<bool>>
  {
    Flags(rec, km, DeletionFields)
  }

  /** A product is active unless its first readable deletion flag says it was deleted. */
  function IsActive(rec: Record, km: KeyMap): bool
  {
    var borrar := FirstFlag(DeletionFlags(rec, km));
    if borrar.None? then true else !borrar.value
  }

  /** A promotional price is written only when it is positive and below the regular price. */
  function PriceIfBelow(p: Option<Num>, regular: Option<Num>): (r: string)
    ensures r != "" <==> p.Some? && regular.Some? && Positive(p.value) && Less(p.value, regular.value)
    ensures r != "" ==> r == FormatPrice(p)
  {
    if p.Some? && regular.Some? && Positive(p.value) && Less(p.value, regular.value) then FormatPrice(p) else ""
  }

  /** `slugify(famName) || slugify(famCode)`. */
  function CategorySlug(famName: string, famCode: string): (r: string)
    ensures IsSlug(r)
    ensures r == "" <==> Slugify(famName) == "" && Slugify(famCode) == ""
  {
    var s := Slugify(famName);
    if s != "" then s else Slugify(famCode)
  }

  /** One row of the import CSV, a column per entry of `ApiHeaders`. */
  datatype ApiRow = ApiRow(
    sku: string, name: string, description: string, regularPrice: string, salePrice: string,
    specialPrice: string, categorySlug: string, imageUrl: string, videoUrl: string, weight: string,
    dimensionLength: string, dimensionWidth: string, dimensionHeight: string, isActive: string)

  /** The columns in `ApiHeaders` order. */
  function Columns(r: ApiRow): (s: seq<string>)
    ensures |s| == |ApiHeaders|
    ensures s[0] == r.sku && s[1] == r.name && s[2] == r.description && s[3] == r.regularPrice
    ensures s[4] == r.salePrice && s[5] == r.specialPrice && s[6] == r.categorySlug
    ensures s[7] == r.imageUrl && s[8] == r.videoUrl && s[9] == r.weight && s[10] == r.dimensionLength
    ensures s[11] == r.dimensionWidth && s[12] == r.dimensionHeight && s[13] == r.isActive
  {
    [r.sku, r.name, r.description, r.regularPrice, r.salePrice, r.specialPrice, r.categorySlug,
     r.imageUrl, r.videoUrl, r.weight, r.dimensionLength, r.dimensionWidth, r.dimensionHeight, r.isActive]
  }

  /** The mapped row of one record; the key map is the one built from the first record. */
  function MapRecord(rec: Record, km: KeyMap): (r: ApiRow)
    ensures r.salePrice == "" && r.imageUrl == "" && r.videoUrl == "" && r.weight == ""
    ensures r.dimensionLength == "" && r.dimensionWidth == "" && r.dimensionHeight == ""
    ensures IsSlug(r.categorySlug)
    ensures r.isActive == "true" || r.isActive == "false"
  {
    var sku := PickStr(rec, km, SkuFields);
    var name := PickStr(rec, km, NameFields);
    var detail := PickStr(rec, km, DetailFields);
    var description := if detail != "" then detail else name;
    var regular := PickNum(rec, km, RegularFields);
    var sale: Option<Num> := None;
    var special := PickNum(rec, km, SpecialFields);
    var famName := PickStr(rec, km, FamilyNameFields);
    var famCode := PickStr(rec, km, FamilyCodeFields);
    ApiRow(sku, name, description, FormatPrice(regular), PriceIfBelow(sale, regular),
      PriceIfBelow(special, regular), CategorySlug(famName, famCode), "", "", "", "", "", "",
      if IsActive(rec, km) then "true" else "false")
  }

  /** `mapRecordToApiRow`: always fourteen strings, in `ApiHeaders` order. */
  function MapRecordToApiRow(rec: Record, km: KeyMap): (row: seq<string>)
    ensures |row| == |ApiHeaders|
    ensures row[4] == "" && row[7] == "" && row[8] == "" && row[9] == ""
    ensures row[10] == "" && row[11] == "" && row[12] == ""
    ensures row[13] == "true" || row[13] == "false"
  {
    Columns(MapRecord(rec, km))
  }

  /** The SKU is the trimmed text of the first candidate that holds a non-blank string. */
  lemma {:induction false} SkuIsFirstText(rec: Record, km: KeyMap, i: nat, s: string)
    requires i < |SkuFields| && GetValueByField(rec, km, SkuFields[i]) == Str(s) && TrimJs(s) != ""
    requires forall j :: 0 <= j < i ==> !Usable(GetValueByField(rec, km, SkuFields[j]))
    ensures MapRecord(rec, km).sku == TrimJs(s)
  {
    PickStrFirstUsable(rec, km, SkuFields, i);
  }

  /** With no candidate holding usable text, the SKU column is empty. */
  lemma {:induction false} SkuMissing(rec: Record, km: KeyMap)
    requires forall j :: 0 <= j < |SkuFields| ==> !Usable(GetValueByField(rec, km, SkuFields[j]))
    ensures MapRecord(rec, km).sku == ""
  {
    PickStrNone(rec, km, SkuFields);
  }

  /** The description is the detail text when there is one and the name otherwise. */
  lemma {:induction false} DescriptionFallsBack(rec: Record, km: KeyMap)
    ensures var r := MapRecord(rec, km);
      var detail := PickStr(rec, km, DetailFields);
      (detail != "" ==> r.description == detail) && (detail == "" ==> r.description == r.name)
    ensures (forall j :: 0 <= j < |DetailFields| ==> !Usable(GetValueByField(rec, km, DetailFields[j]))) ==>
      MapRecord(rec, km).description == MapRecord(rec, km).name
  {
    if forall j :: 0 <= j < |DetailFields| ==> !Usable(GetValueByField(rec, km, DetailFields[j])) {
      PickStrNone(rec, km, DetailFields);
    }
  }

  /** The regular price column is empty exactly when no candidate holds a number. */
  lemma {:induction false} RegularPriceColumn(rec: Record, km: KeyMap)
    ensures MapRecord(rec, km).regularPrice == "" <==>
      forall j :: 0 <= j < |RegularFields| ==> ParseNumberish(GetValueByField(rec, km, RegularFields[j])).None?
  {
    PickNumNone(rec, km, RegularFields);
  }

  /** A written regular price reads back as the price rounded to cents. */
  lemma {:induction false} RegularPriceReadsBack(rec: Record, km: KeyMap, x: real)
    requires PickNum(rec, km, RegularFields) == Some(Fin(x))
    ensures ParseFloatJs(MapRecord(rec, km).regularPrice) == Some(Fin(Round2(x)))
  {
    FormatPriceReadsBack(x);
  }

  /** The special price is written exactly when 0 < special < regular, and then reads back rounded. */
  lemma {:induction false} SpecialPriceColumn(rec: Record, km: KeyMap)
    ensures var r := MapRecord(rec, km);
      var regular, special := PickNum(rec, km, RegularFields), PickNum(rec, km, SpecialFields);
      (r.specialPrice != "" <==> special.Some? && regular.Some? && Positive(special.value) && Less(special.value, regular.value))
      && (r.specialPrice != "" && special.value.Fin? ==> ParseFloatJs(r.specialPrice) == Some(Fin(Round2(special.value.x))))
  {
    var special := PickNum(rec, km, SpecialFields);
    if special.Some? && special.value.Fin? {
      FormatPriceReadsBack(special.value.x);
    }
  }

  /** The category is the family-name slug, or the family-code slug when that is empty. */
  lemma {:induction false} CategoryColumn(rec: Record, km: KeyMap)
    ensures var r := MapRecord(rec, km);
      var n, c := Slugify(PickStr(rec, km, FamilyNameFields)), Slugify(PickStr(rec, km, FamilyCodeFields));
      (n != "" ==> r.categorySlug == n) && (n == "" ==> r.categorySlug == c)
  {
  }

  /** The chain yields the first flag that some candidate field provides. */
  lemma {:induction false} FlagChainFirst(rec: Record, km: KeyMap, fields: seq<string>, i: nat)
    requires i < |fields| && ParseBoolish(GetValueByField(rec, km, fields[i])).Some?
    requires forall j :: 0 <= j < i ==> ParseBoolish(GetValueByField(rec, km, fields[j])).None?
    ensures FirstFlag(Flags(rec, km, fields)) == ParseBoolish(GetValueByField(rec, km, fields[i]))
  {
    var flags := Flags(rec, km, fields);
    forall j | 0 <= j <= i ensures flags[j] == ParseBoolish(GetValueByField(rec, km, fields[j])) {
      FlagAt(rec, km, fields, j);
    }
    FirstFlagIsFirstSome(flags, i);
  }

  /** The chain yields null when no candidate field provides a flag. */
  lemma {:induction false} FlagChainNone(rec: Record, km: KeyMap, fields: seq<string>)
    requires forall j :: 0 <= j < |fields| ==> ParseBoolish(GetValueByField(rec, km, fields[j])).None?
    ensures FirstFlag(Flags(rec, km, fields)).None?
  {
    var flags := Flags(rec, km, fields);
    forall j | 0 <= j < |fields| ensures flags[j] == ParseBoolish(GetValueByField(rec, km, fields[j])) {
      FlagAt(rec, km, fields, j);
    }
    FirstFlagNone(flags);
  }

  /** A product with no readable deletion flag is active. */
  lemma {:induction false} ActiveWhenUnflagged(rec: Record, km: KeyMap)
    requires forall j :: 0 <= j < |DeletionFields| ==> ParseBoolish(GetValueByField(rec, km, DeletionFields[j])).None?
    ensures MapRecord(rec, km).isActive == "true"
  {
    FlagChainNone(rec, km, DeletionFields);
  }

  /** Otherwise `is_active` is the negation of the first readable deletion flag. */
  lemma {:induction false} ActiveFollowsFirstFlag(rec: Record, km: KeyMap, i: nat)
    requires i < |DeletionFields| && ParseBoolish(GetValueByField(rec, km, DeletionFields[i])).Some?
    requires forall j :: 0 <= j < i ==> ParseBoolish(GetValueByField(rec, km, DeletionFields[j])).None?
    ensures MapRecord(rec, km).isActive == if ParseBoolish(GetValueByField(rec, km, DeletionFields[i])).value then "false" else "true"
  {
    FlagChainFirst(rec, km, DeletionFields, i);
  }

  /** A record with no fields maps to an empty, active row. */
  lemma {:induction false} EmptyRecordRow(km: KeyMap)
    ensures MapRecord([], km) == ApiRow("", "", "", "", "", "", "", "", "", "", "", "", "", "true")
  {
    NoFieldNoText(km, SkuFields);
    NoFieldNoText(km, NameFields);
    NoFieldNoText(km, DetailFields);
    NoFieldNoNumber(km, RegularFields);
    NoFieldNoNumber(km, SpecialFields);
    NoFieldNoText(km, FamilyNameFields);
    NoFieldNoText(km, FamilyCodeFields);
    NoFieldNoFlag(km, DeletionFields);
  }

  /** A record with no fields has no value under any name. */
  lemma NothingFound(km: KeyMap, field: string)
    ensures GetValueByField([], km, field) == Undefined
  {
  }

  lemma {:induction false} NoFieldNoText(km: KeyMap, fields: seq<string>)
    ensures PickStr([], km, fields) == ""
  {
    forall j | 0 <= j < |fields| ensures GetValueByField([], km, fields[j]) == Undefined {
      NothingFound(km, fields[j]);
    }
    PickStrNone([], km, fields);
  }

  lemma {:induction false} NoFieldNoNumber(km: KeyMap, fields: seq<string>)
    ensures PickNum([], km, fields).None?
  {
    forall j | 0 <= j < |fields| ensures GetValueByField([], km, fields[j]) == Undefined {
      NothingFound(km, fields[j]);
    }
    PickNumNone([], km, fields);
  }

  lemma {:induction false} NoFieldNoFlag(km: KeyMap, fields: seq<string>)
    ensures FirstFlag(Flags([], km, fields)).None?
  {
    forall j | 0 <= j < |fields| ensures GetValueByField([], km, fields[j]) == Undefined {
      NothingFound(km, fields[j]);
    }
    FlagChainNone([], km, fields);
  }
}
