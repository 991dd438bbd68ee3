# ColorPalette of the custom seaborn styling script

This project models the `ColorPalette` class of `scripts/custom_seaborn.py`.
The class is a named colour table used to style matplotlib and seaborn charts.
A palette has a display name and a dictionary from colour name to colour string.
The dictionary starts with 14 built-in colours.
Colours can be added or overwritten, looked up, removed and listed, and the palette can be displayed.

The model has three modules:

- `Wrappers` holds `Option`. It stands for Python's `None`-or-value lookup result.
- `ColorTable` models the dictionary as a value: a sequence of `Entry(name, value)` in insertion order.
  `Lookup`, `Put` (insert-or-overwrite), `Delete` and `DisplayLines` are functions on that sequence.
  `AsMap` forgets the order and gives the plain dictionary.
  It is the reference that `Lookup`, `Put` and `Delete` are proved against: `m[n]`, `m[n] = v` and `del m[n]`.
- `CustomSeaborn` holds the class `ColorPalette`.
  Its fields `paletteName` and `colors` are changed in place by its methods.
  The object invariant `Valid()` says that colour names are unique.
  Every method is specified through the `ColorTable` functions.

Output goes to the console in the source. Here it is returned instead:

- `RemoveColor` returns the "not found" notice as `Some(text)`, or `None` when nothing is printed.
- `DisplayPalette` returns the printed lines as a sequence.

## Model

| member | source | states |
|---|---|---|
| `CustomSeaborn.ColorPalette.constructor` | scripts/custom_seaborn.py:8-61 | The name is the argument, which defaults to "Irag's Palette (Default)". The table is the 14 built-in entries in declaration order, and their names are unique. |
| `CustomSeaborn.DefaultColorsDistinct` | scripts/custom_seaborn.py:41-61 | The built-in table has exactly 14 entries with pairwise distinct names. |
| `CustomSeaborn.DefaultColorsResolve` | scripts/custom_seaborn.py:42-60 | Each of the 14 built-in names resolves to its listed value, e.g. "dark blue" to "#072ea5" and "gray" to "gray". |
| `CustomSeaborn.ColorPalette.AddColor` | scripts/custom_seaborn.py:63-65 | After the call, the name reads back the new value, whether or not it was present. Every other name reads as before and the palette name is unchanged. The entry count grows by one only for a new name. Keys stay unique. |
| `CustomSeaborn.ColorPalette.Color` | scripts/custom_seaborn.py:67-69 | It returns `Some(v)` exactly when an entry for the name exists, and then `v` is that entry's value. Otherwise it returns `None`. It has no failure case and reads the state without changing it. |
| `CustomSeaborn.ColorPalette.RemoveColor` | scripts/custom_seaborn.py:71-76 | A present name is cut out at its position, keeping the other entries in order. It then reads as `None`, and no notice is produced. An absent name leaves the table unchanged and produces the "Color '<name>' not found in the palette." notice. Other names read as before, the palette name is unchanged and keys stay unique. |
| `CustomSeaborn.ColorPalette.ListColors` | scripts/custom_seaborn.py:78-80 | The listing has unique names, and every name resolves through it exactly as through `Color`. |
| `CustomSeaborn.ColorPalette.DisplayPalette` | scripts/custom_seaborn.py:82-89 | An empty table gives the single line "<name> is empty.". Otherwise it gives the header "Palette: <name>" followed by one "colour: value" line per entry, in insertion order. |
| `ColorTable.Lookup` | scripts/custom_seaborn.py:69 | The result is `Some` exactly when the name is a key, and its value is stored under that name. |
| `ColorTable.LookupAsMap` | scripts/custom_seaborn.py:69 | Lookup agrees with the dictionary: `dict.get(name, None)`. |
| `ColorTable.LookupAt` | scripts/custom_seaborn.py:69 | With unique keys, the entry at any position is what a lookup of its name returns. |
| `ColorTable.AsMapKeys` | scripts/custom_seaborn.py:73 | A name is a key of the dictionary view exactly when some entry carries it, as for `name in self.colors`. |
| `ColorTable.PutAsMap` | scripts/custom_seaborn.py:65 | Insert-or-overwrite is the dictionary assignment `m[name] = value`. |
| `ColorTable.PutLookupSame` | scripts/custom_seaborn.py:65 | A written value is read back by a lookup of its name. |
| `ColorTable.PutLookupOther` | scripts/custom_seaborn.py:65 | Writing one name does not change the lookup of any other name. |
| `ColorTable.PutPresent` | scripts/custom_seaborn.py:65 | Overwriting an existing name replaces its entry in place, with the same length and order. |
| `ColorTable.PutAbsent` | scripts/custom_seaborn.py:65 | Writing a new name appends exactly that entry at the end of the insertion order. |
| `ColorTable.PutDistinct` | scripts/custom_seaborn.py:65 | Insert-or-overwrite keeps keys unique. The count grows by one exactly when the name was new. |
| `ColorTable.DeleteAbsent` | scripts/custom_seaborn.py:75-76 | Deleting a missing name leaves the table unchanged. |
| `ColorTable.DeletePresent` | scripts/custom_seaborn.py:73-74 | Deleting a present name removes exactly its entry and keeps the others in order. |
| `ColorTable.DeleteAsMap` | scripts/custom_seaborn.py:73-74 | With unique keys, delete is the dictionary removal `del m[name]`, or no change for a missing name. |
| `ColorTable.DeleteLookup` | scripts/custom_seaborn.py:73-74 | After a delete the name reads as absent, and every other name reads as before. |
| `ColorTable.DeleteDistinct` | scripts/custom_seaborn.py:73-76 | Delete keeps keys unique. The count drops by one exactly when the name was present. |
| `ColorTable.EntryLinesAt` | scripts/custom_seaborn.py:88-89 | There is one printed line per entry, and the k-th line is "name: value" of the k-th entry. |
| `ColorTable.DisplayLinesShape` | scripts/custom_seaborn.py:84-89 | The display is the "is empty." notice for an empty table. Otherwise it is a header followed by the entry lines in insertion order. |

## Left out

- `download_font` (scripts/custom_seaborn.py:91-110) is not modelled. It creates a directory, makes an HTTP request and writes a file, all through libraries outside this model.
- The module-level setup (scripts/custom_seaborn.py:112-136) is not modelled: downloading and registering the font, the system font scan, the writes to matplotlib's `rcParams` and the seaborn palette call. These are one-way writes into the global state of foreign libraries. The colour names it reads are all built-in ones, and `DefaultColorsResolve` shows they resolve.
- Console output is not modelled as I/O. `RemoveColor` returns its notice and `DisplayPalette` returns its lines.
- `ListColors` returns the current table as a value. The source returns the live dictionary object, so later changes show through it. That aliasing is not modelled.
- Names and colour values are modelled as strings. The source accepts any hashable key and any value, and never validates colour strings; neither does the model.
- The docstring names the default palette "irag Palette" (scripts/custom_seaborn.py:13, 24). The code uses "Irag's Palette (Default)" (scripts/custom_seaborn.py:8), and the model follows the code.
