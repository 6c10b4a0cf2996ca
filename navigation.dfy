/** The three-level drill-down held in the session: block list, plant grid of
    the chosen block, detail form of the chosen plant. */
module Navigation {
  import opened Wrappers
  import opened Grid
  import opened PlantTable
  import opened PlantForm

  /** An entry of the block catalog. */
  datatype Block = Block(blockLabel: string, id: int, blockType: string)

  datatype Level = BlockList | PlantGrid | PlantDetails

  /** The screen shown, decided by which of the two choices are set. */
  function LevelOf(blockChoice: Option<int>, plantChoice: Option<string>): (l: Level)
    ensures l == BlockList <==> blockChoice.None?
    ensures l == PlantGrid <==> blockChoice.Some? && plantChoice.None?
    ensures l == PlantDetails <==> blockChoice.Some? && plantChoice.Some?
  {
    if blockChoice.None? then BlockList
    else if plantChoice.None? then PlantGrid
    else PlantDetails
  }

  /** The session state the screens read and the buttons write. */
  class Session {
    var blockChoice: Option<int>
    var blockLabel: string
    var blockType: string
    var plantChoice: Option<string>
    var rowIndex: nat
    var plantName: string

    /** No plant without a block, and a chosen plant is a cell of the chosen
        block's grid whose id, row and name agree. */
    ghost predicate Valid()
      reads this
    {
      (blockChoice.None? ==> plantChoice.None?) &&
      (plantChoice.Some? ==>
        rowIndex < RowCount &&
        ParseCellName(plantName).Some? && ParseCellName(plantName).value.0 == rowIndex &&
        plantChoice.value == IdOf(blockLabel, rowIndex, plantName))
    }

    function Current(): Level
      reads this
    {
      LevelOf(blockChoice, plantChoice)
    }

    /** A fresh session shows the block list. */
    constructor ()
      ensures Valid() && Current() == BlockList
      ensures blockChoice == None && plantChoice == None
    {
      blockChoice, blockLabel, blockType := None, "", "";
      plantChoice, rowIndex, plantName := None, 0, "";
    }

    /** A block button sets the block id, label and type together. */
    method ClickBlock(b: Block)
      requires Valid() && Current() == BlockList
      modifies this
      ensures Valid() && Current() == PlantGrid
      ensures blockChoice == Some(b.id) && blockLabel == b.blockLabel && blockType == b.blockType
      ensures plantChoice == old(plantChoice) && rowIndex == old(rowIndex) && plantName == old(plantName)
    {
      blockChoice := Some(b.id);
      blockLabel := b.blockLabel;
      blockType := b.blockType;
    }

    /** The button of cell p in row r selects that plant, its row and its name. */
    method ClickCell(r: nat, p: nat)
      requires Valid() && Current() == PlantGrid && r < RowCount
      modifies this
      ensures Valid() && Current() == PlantDetails
      ensures plantChoice == Some(PlantId(blockLabel, r, p)) && rowIndex == r && plantName == CellName(r, p)
      ensures blockChoice == old(blockChoice) && blockLabel == old(blockLabel) && blockType == old(blockType)
    {
      CellNameRoundTrip(r, p);
      plantChoice := Some(PlantId(blockLabel, r, p));
      rowIndex := r;
      plantName := CellName(r, p);
    }

    /** Back clears the plant only, which returns to the grid of the same block. */
    method Back()
      requires Valid() && Current() == PlantDetails
      modifies this
      ensures Valid() && Current() == PlantGrid
      ensures plantChoice == None
      ensures blockChoice == old(blockChoice) && blockLabel == old(blockLabel) && blockType == old(blockType)
      ensures rowIndex == old(rowIndex) && plantName == old(plantName)
    {
      plantChoice := None;
    }

    /** Submitting the detail form: the table after the save, or None where the
        harvest date cannot be represented and nothing is saved. */
    method Submit(t: Table, form: FormInput) returns (saved: Option<Table>)
      requires Valid() && Current() == PlantDetails
      ensures saved.None? <==> HarvestDate(form.floweringDate).None?
      ensures saved.Some? ==>
        saved.value == Upsert(t, NewEntry(plantChoice.value, blockType, blockChoice.value, rowIndex,
                                          plantName, form, form.floweringDate + HarvestLagDays))
      ensures saved.Some? ==>
        var s := saved.value;
        var id := plantChoice.value;
        |s| == |t| - Count(t, id) + 1 &&
        Count(s, id) == 1 &&
        Find(s, id) == Some(s[|s| - 1]) &&
        s[..|s| - 1] == Without(t, id)
      ensures saved.Some? ==>
        var e := saved.value[|saved.value| - 1];
        e.plantId == plantChoice.value &&
        e.blockId == blockChoice.value && e.blockType == blockType &&
        1 <= e.row <= RowCount && e.row == rowIndex + 1 && e.position == plantName &&
        e.plantingDate == Some(form.plantingDate) && e.fertilizerDate == Some(form.fertilizerDate) &&
        e.irrigationCycle == form.irrigationCycle && e.notes == form.notes &&
        e.floweringDate == Some(form.floweringDate) &&
        e.harvestDate == Some(form.floweringDate + HarvestLagDays)
    {
      var harvest := HarvestDate(form.floweringDate);
      if harvest.None? {
        return None;
      }
      var e := NewEntry(plantChoice.value, blockType, blockChoice.value, rowIndex, plantName,
                        form, harvest.value);
      var s := Upsert(t, e);
      SaveOfNewEntry(t, plantChoice.value, blockType, blockChoice.value, rowIndex, plantName,
                     form, harvest.value);
      saved := Some(s);
    }
  }
}
