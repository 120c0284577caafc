/**
 * The GeoPackage files of the plug-in's data folder, passed in as values: each file name maps to
 * its layers by name. The flora list lives in Flore.gpkg and every fauna list in Faune.gpkg,
 * each in a layer named "Liste <title>".
 */
module GeoPackages {
  import opened Wrappers
  import opened Tables

  type Folder = map<string, map<string, Table>>

  /** The file that holds the list of `title`: `f"{title}.gpkg"` for the flora, Faune.gpkg otherwise. */
  function FileFor(title: string): (f: string)
    ensures f == "Flore.gpkg" <==> title == "Flore"
    ensures f != "Flore.gpkg" ==> f == "Faune.gpkg"
  {
    if title == "Flore" then title + ".gpkg" else "Faune.gpkg"
  }

  function ListLayer(title: string): string {
    "Liste " + title
  }

  /** `gpd.read_file(FileFor(title), layer=f"Liste {title}")`: fails when the file or the layer is missing. */
  function ReadList(folder: Folder, title: string): (r: Result<Table, Error>)
    ensures r.Ok? <==> FileFor(title) in folder && ListLayer(title) in folder[FileFor(title)]
    ensures r.Err? ==> r.error.IOError? && (r.error.path == FileFor(title) <==> FileFor(title) !in folder)
  {
    var file := FileFor(title);
    if file !in folder then Err(IOError(file))
    else if ListLayer(title) !in folder[file] then Err(IOError(file + ":" + ListLayer(title)))
    else Ok(folder[file][ListLayer(title)])
  }
}
