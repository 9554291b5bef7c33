/**
 * The slice of MSBuild's project model that the manifest toggler uses: a
 * project file on disk, the evaluated project loaded from it (a property bag
 * and an ordered list of items), and the edits `SetProperty`, `AddItem`,
 * `RemoveItem` and `Save`.
 */
module ProjectModel {

  /** One `Name="Value"` metadata entry of an item. */
  datatype Metadatum = Metadatum(name: string, value: string)

  /** An evaluated item: its item type, its evaluated include and its metadata. */
  datatype Item = Item(itemType: string, evaluatedInclude: string, metadata: seq<Metadatum>)

  /** The project document: its properties and its items, in document order. */
  datatype Manifest = Manifest(properties: map<string, string>, items: seq<Item>)

  /** `GetPropertyValue`: the value of a property, or "" when it is not defined. */
  function PropertyValue(properties: map<string, string>, name: string): string {
    if name in properties then properties[name] else ""
  }

  /** `GetItems(itemType)`: the items of one type, in document order. */
  function GetItems(items: seq<Item>, itemType: string): (r: seq<Item>)
    ensures forall x | x in r :: x in items && x.itemType == itemType
    ensures forall x | x in items && x.itemType == itemType :: x in r
  {
    if items == [] then []
    else if items[0].itemType == itemType then [items[0]] + GetItems(items[1..], itemType)
    else GetItems(items[1..], itemType)
  }

  /** `GetItems` keeps document order: the items of a concatenation are those of each part, in turn. */
  lemma {:induction false} GetItemsAppend(a: seq<Item>, b: seq<Item>, itemType: string)
    ensures GetItems(a + b, itemType) == GetItems(a, itemType) + GetItems(b, itemType)
  {
    if a == [] {
      assert a + b == b;
    } else {
      assert (a + b)[1..] == a[1..] + b;
      GetItemsAppend(a[1..], b, itemType);
    }
  }

  /** The project file at a fixed path; `contents` is what is stored on disk. */
  class ProjectFile {
    var contents: Manifest

    constructor (contents: Manifest)
      ensures this.contents == contents
    {
      this.contents := contents;
    }
  }

  /** An evaluated project, edited in memory until `Save` writes it back to its file. */
  class Project {
    const file: ProjectFile
    var properties: map<string, string>
    var items: seq<Item>

    /** `ProjectModelTasks.ParseProject`: loads the document stored in `file`. */
    constructor Parse(file: ProjectFile)
      ensures this.file == file
      ensures properties == file.contents.properties && items == file.contents.items
    {
      this.file := file;
      properties := file.contents.properties;
      items := file.contents.items;
    }

    /** The document as it stands in memory. */
    function Document(): Manifest
      reads this
    {
      Manifest(properties, items)
    }

    function GetPropertyValue(name: string): string
      reads this
    {
      PropertyValue(properties, name)
    }

    /** Defines or overwrites one property; nothing else changes. */
    method SetProperty(name: string, value: string)
      modifies this
      ensures properties == old(properties)[name := value]
      ensures items == old(items)
      ensures PropertyValue(properties, name) == value
      ensures forall other | other != name :: PropertyValue(properties, other) == PropertyValue(old(properties), other)
    {
      properties := properties[name := value];
    }

    /** Adds one item; it is placed after all existing items. */
    method AddItem(itemType: string, unevaluatedInclude: string, metadata: seq<Metadatum>)
      modifies this
      ensures items == old(items) + [Item(itemType, unevaluatedInclude, metadata)]
      ensures properties == old(properties)
    {
      items := items + [Item(itemType, unevaluatedInclude, metadata)];
    }

    /** Removes the item at `index`; the other items keep their order. */
    method RemoveItem(index: nat)
      requires index < |items|
      modifies this
      ensures items == old(items)[..index] + old(items)[index + 1..]
      ensures |items| == |old(items)| - 1
      ensures properties == old(properties)
    {
      items := items[..index] + items[index + 1..];
    }

    /** Writes the in-memory document to the project file. */
    method Save()
      modifies file
      ensures file.contents == Document()
    {
      file.contents := Document();
    }
  }
}
