/**
 * The property table the builder fills: an ordered list of column keys and an
 * ordered list of rows, each row a subject and its cells by column key. The
 * array-backed table also carries the capacity it was created with.
 */
module PropertyTables {
  import opened Wrappers
  import opened Literals

  datatype Row = Row(subject: string, cells: map<string, Literal>)

  datatype Capacity = Capacity(rows: nat, columns: nat)

  class PropertyTable {
    var columns: seq<string>
    var rows: seq<Row>
    /** Some for PropertyTableArrayImpl(rows, columns), None for the hash-map table. */
    const capacity: Option<Capacity>

    /** new PropertyTableHashMapImpl() */
    constructor HashMapBacked()
      ensures columns == [] && rows == [] && capacity == None
    {
      columns := [];
      rows := [];
      capacity := None;
    }

    /** new PropertyTableArrayImpl(rowNum, columnNum) */
    constructor ArrayBacked(rowNum: nat, columnNum: nat)
      ensures columns == [] && rows == [] && capacity == Some(Capacity(rowNum, columnNum))
    {
      columns := [];
      rows := [];
      capacity := Some(Capacity(rowNum, columnNum));
    }

    /** table.createColumn(key): the new column comes last. */
    method CreateColumn(key: string)
      modifies this
      ensures columns == old(columns) + [key]
      ensures rows == old(rows)
    {
      columns := columns + [key];
    }

    /** table.createRow(subject): a new empty row comes last; its index is returned. */
    method CreateRow(subject: string) returns (index: nat)
      modifies this
      ensures index == |old(rows)|
      ensures rows == old(rows) + [Row(subject, map[])]
      ensures columns == old(columns)
    {
      index := |rows|;
      rows := rows + [Row(subject, map[])];
    }

    /** row.setValue(table.getColumn(key), value): only that cell of that row changes. */
    method SetValue(index: nat, key: string, value: Literal)
      requires index < |rows|
      requires key in columns
      modifies this
      ensures rows == old(rows)[index := Row(old(rows)[index].subject, old(rows)[index].cells[key := value])]
      ensures columns == old(columns)
    {
      rows := rows[index := Row(rows[index].subject, rows[index].cells[key := value])];
    }
  }
}
