/** The plant-detail form: the values it is pre-filled with, the derived
    harvest date and the entry a submission saves. */
module PlantForm {
  import opened Wrappers
  import opened Dates
  import opened PlantTable

  /** Harvest is expected this many days after flowering. */
  const HarvestLagDays := 90

  /** The expected harvest date; None where Python's date arithmetic raises
      OverflowError because the sum passes `date.max`. */
  function HarvestDate(flowering: Date): (h: Option<Date>)
    ensures h.Some? <==> flowering + HarvestLagDays <= MaxOrdinal
    ensures h.Some? ==> h.value - flowering == HarvestLagDays
  {
    if flowering + HarvestLagDays <= MaxOrdinal then Some(flowering + HarvestLagDays) else None
  }

  /** Flowering on 2024-01-01 gives an expected harvest on 2024-03-31. */
  lemma HarvestOfNewYear2024()
    ensures HarvestDate(Ordinal(2024, 1, 1)) == Some(Ordinal(2024, 3, 31))
  {
  }

  datatype DateField = Planting | Fertilizer | Flowering
  datatype TextField = Irrigation | Notes

  function StoredDate(rec: Record, f: DateField): Option<Date> {
    match f
    case Planting => rec.plantingDate
    case Fertilizer => rec.fertilizerDate
    case Flowering => rec.floweringDate
  }

  function StoredText(rec: Record, f: TextField): string {
    match f
    case Irrigation => rec.irrigationCycle
    case Notes => rec.notes
  }

  /** A date input starts at the stored date when the plant has a row and that
      cell is not null, and at today otherwise. */
  function DateDefault(found: Option<Record>, f: DateField, today: Date): (d: Date)
    ensures found.Some? && StoredDate(found.value, f).Some? ==> d == StoredDate(found.value, f).value
    ensures found.None? || StoredDate(found.value, f).None? ==> d == today
  {
    if found.Some? && StoredDate(found.value, f).Some? then StoredDate(found.value, f).value else today
  }

  /** A text input starts at the stored text when the plant has a row, and empty otherwise. */
  function TextDefault(found: Option<Record>, f: TextField): (s: string)
    ensures found.Some? ==> s == StoredText(found.value, f)
    ensures found.None? ==> s == ""
  {
    if found.Some? then StoredText(found.value, f) else ""
  }

  /** The values the form holds when submitted. */
  datatype FormInput = FormInput(
    plantingDate: Date,
    fertilizerDate: Date,
    irrigationCycle: string,
    notes: string,
    floweringDate: Date)

  function FormDate(form: FormInput, f: DateField): Date {
    match f
    case Planting => form.plantingDate
    case Fertilizer => form.fertilizerDate
    case Flowering => form.floweringDate
  }

  function FormText(form: FormInput, f: TextField): string {
    match f
    case Irrigation => form.irrigationCycle
    case Notes => form.notes
  }

  /** The form of plant `id` as first shown: every field follows its default
      rule applied to the first row with that key; a plant without a row shows
      today in every date and nothing in every text. */
  function Prefill(t: Table, id: string, today: Date): (form: FormInput)
    ensures forall f :: FormDate(form, f) == DateDefault(Find(t, id), f, today)
    ensures forall f :: FormText(form, f) == TextDefault(Find(t, id), f)
    ensures Find(t, id).None? ==> form == FormInput(today, today, "", "", today)
  {
    var found := Find(t, id);
    FormInput(
      DateDefault(found, Planting, today),
      DateDefault(found, Fertilizer, today),
      TextDefault(found, Irrigation),
      TextDefault(found, Notes),
      DateDefault(found, Flowering, today))
  }

  /** The row a submission saves for the selected plant. */
  function NewEntry(plantId: string, blockType: string, blockId: int, rowIndex: nat,
                    plantName: string, form: FormInput, harvest: Date): Record
  {
    Record(plantId, blockType, blockId, rowIndex + 1, plantName,
           Some(form.plantingDate), Some(form.fertilizerDate),
           form.irrigationCycle, form.notes,
           Some(form.floweringDate), Some(harvest))
  }

  /** What saving a new entry does to the table: one row for the plant, the
      entry last with the fields of the submission, every other row kept. */
  lemma SaveOfNewEntry(t: Table, plantId: string, blockType: string, blockId: int,
                       rowIndex: nat, plantName: string, form: FormInput, harvest: Date)
    ensures var s := Upsert(t, NewEntry(plantId, blockType, blockId, rowIndex, plantName, form, harvest));
      |s| == |t| - Count(t, plantId) + 1 &&
      Count(s, plantId) == 1 &&
      Find(s, plantId) == Some(s[|s| - 1]) &&
      s[..|s| - 1] == Without(t, plantId)
    ensures var e := NewEntry(plantId, blockType, blockId, rowIndex, plantName, form, harvest);
      e.plantId == plantId && e.blockId == blockId && e.blockType == blockType &&
      e.row == rowIndex + 1 && e.position == plantName &&
      e.plantingDate == Some(form.plantingDate) && e.fertilizerDate == Some(form.fertilizerDate) &&
      e.irrigationCycle == form.irrigationCycle && e.notes == form.notes &&
      e.floweringDate == Some(form.floweringDate) && e.harvestDate == Some(harvest)
  {
    var e := NewEntry(plantId, blockType, blockId, rowIndex, plantName, form, harvest);
    var s := Upsert(t, e);
    UpsertSingleRow(t, e);
    UpsertShape(t, e);
    assert s[..|s| - 1] == Without(t, plantId);
  }

  /** Reopening a plant right after saving it shows exactly what was submitted. */
  lemma ReopenAfterSave(t: Table, plantId: string, blockType: string, blockId: int,
                        rowIndex: nat, plantName: string, form: FormInput,
                        harvest: Date, today: Date)
    ensures Prefill(Upsert(t, NewEntry(plantId, blockType, blockId, rowIndex, plantName, form, harvest)),
                    plantId, today) == form
  {
    UpsertSingleRow(t, NewEntry(plantId, blockType, blockId, rowIndex, plantName, form, harvest));
  }

  /** Saving one plant does not change what the form of any other plant shows. */
  lemma SaveLeavesOtherForms(t: Table, e: Record, other: string, today: Date)
    requires other != e.plantId
    ensures Prefill(Upsert(t, e), other, today) == Prefill(t, other, today)
  {
    UpsertOtherKeys(t, e, other);
  }
}
