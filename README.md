# pathml tile and mask storage, modelled in Dafny

This project models the storage core of pathml, a digital-pathology library:

- **The on-disk tile store** (`_tiles_h5_manager`). One HDF5 group per tile, named `str(key)`, holds the image, a `masks` group and metadata attributes.
- **The on-disk flat mask store** (`_masks_h5_manager`). One dataset per mask.
- **The in-memory `Masks` collection**. An OrderedDict from str name to ndarray.
- **The tile-index helpers of `pathml.core.utils`**. They write strings, int tuples and dicts as HDF5 attributes and groups. They also write a dict of tiles as one group per tile and read it back into an ordered dict.
- **`center_crop_im_batch`**. It crops a 4-D image batch on its two spatial axes.

The modules are:

- `PyTypes` (py_types.dfy): the Python values the code sees.
  - Dynamically typed keys, with `bool` counted as an `int` where Python does so.
  - The exceptions raised.
  - ndarrays as a shape and cells.
  - HDF5 attribute scalars.
- `PyRepr` (py_repr.dfy): `str()` of ints and int tuples, and the `eval` that reads them back.
- `NameOrder` (name_order.dfy): the order in which HDF5 lists the members of a group created without `track_order`. That is ascending name order.
  - Both stores open their file that way (pathml/core/h5managers.py:17).
  - So their integer positions follow name order, not insertion order.
- `H5Tree` (h5_tree.dfy): an HDF5 file as a tree.
  - A group has members, attributes and a creation order. Whether it tracks that order decides what `keys()` lists.
  - A string dataset has a text and attributes.
- `TilesManager`, `MasksManager` (tiles_manager.dfy, masks_manager.dfy): the stores.
  - Each is a class over its key list, its records and its fixed shape.
  - Every method is proved equal to a specification function on the store's state.
  - Lemmas state the errors, the invariants and the round trips.
- `MaskCollection` (masks.dfy): the `Masks` class over an OrderedDict: keys in insertion order and a map of values.
- `H5Utils` (h5_utils.dfy): the attribute helpers and the tile-index writer and reader over the tree.
  - The loops of the writer and the reader are methods proved against recursive specification functions.
  - Writing and then reading a tile index, with the intended name reading, is proved to give back one entry per tile, in order.
- `CenterCrop` (center_crop.dfy): the crop as written, next to the evidently intended crop.
  - A tensor is a shape plus a function from index to value.
  - Slicing follows Python's clamping rules.

Three behaviours of the tile store are worth knowing:

- it rejects a second `add` of a key with KeyError;
- it lists and numbers tiles in name order;
- `add` writes a tile's labels to a `labels` sub-group, but `get` reads only a `labels` attribute. So labels given to `add` do not come back from `get`; only those set by `update(..., 'labels')` do.

## Model

| member | source | states |
|---|---|---|
| PyTypes.DictOf | pathml/core/h5managers.py:135 | `dict(items)` has exactly the items' keys, and the last item's key holds its value |
| PyTypes.DictOfLastWins | pathml/core/h5managers.py:135 | in `dict(items)` every key holds the value of its last occurrence |
| PyTypes.Lookup | pathml/core/utils.py:76-78 | a missing field is absent from every item; a found value is one of the items |
| NameOrder.InsertSorted | pathml/core/h5managers.py:70 | a new group joins the listing at its place in name order: still sorted, one more name, an existing name leaves the listing as it was |
| NameOrder.RemoveName | pathml/core/h5managers.py:221 | deleting a member removes exactly that name and keeps the listing sorted |
| NameOrder.SortedUnique | pathml/core/h5managers.py:17 | name order is determined by the set of names alone: two sorted listings of the same names are equal |
| NameOrder.SortedCount | pathml/core/h5managers.py:152 | a sorted listing of a store's names has one entry per stored member, so `len(self.h5)` is its length |
| NameOrder.DistinctCount | pathml/preprocessing/masks.py:28-29 | a key list that names each stored key once has one entry per key |
| H5Tree.Listing | pathml/core/utils.py:114 | `keys()` lists exactly the members: in creation order for a tracked group, in name order otherwise |
| H5Tree.CreateGroup | pathml/core/utils.py:70 | `create_group` on a dataset is an AttributeError, an existing name a ValueError leaving the file unchanged; otherwise one empty group is appended |
| H5Tree.SetAttr | pathml/core/utils.py:35 | setting an attribute replaces just that attribute; members and order are untouched |
| H5Tree.Link | pathml/core/utils.py:75 | a new member is appended to the creation order and keeps each member listed once |
| H5Tree.ListingCounts | pathml/core/utils.py:114 | the listing, the creation order and the member map have the same size |
| PyRepr.IntRoundTrip | pathml/core/utils.py:115 | the decimal text of any int reads back as that int |
| PyRepr.TupleRoundTrip | pathml/core/h5managers.py:136 | `eval(str(t)) == t` for every int tuple, including the empty and the one-element tuple |
| PyRepr.TupleReprAscii | pathml/core/utils.py:54 | the text of an int tuple is ASCII, so `np.string_` never fails on it |
| PyRepr.TupleReprInjective | pathml/core/h5managers.py:62 | distinct int tuples have distinct texts, so two tuple keys never name the same tile group |
| TilesManager.RemoveKeepsValid | pathml/core/h5managers.py:213-221 | removing keeps tile names unique and in name order |
| TilesManager.AddOutcome | pathml/core/h5managers.py:52-92 | `add` succeeds exactly for a new str or tuple key whose image has the store's shape (or is the first) and whose name and slidetype are ASCII; it then holds one more tile and fixes the shape, with every earlier tile as it was; a key or shape error changes nothing; a non-ASCII name or slidetype raises after the group was written; the shape once set never changes |
| TilesManager.DuplicateAddRejected | pathml/core/h5managers.py:60-63 | after a tuple key is added, adding it again, or its str spelling, is a KeyError that changes nothing |
| TilesManager.AddThenGet | pathml/core/h5managers.py:70-139 | `get` by the key just added returns its image, masks, name, coordinates and slidetype, but not the labels given to `add` |
| TilesManager.GetByPosition | pathml/core/h5managers.py:150-169 | an int past `len - 1` is a KeyError; an in-range int reads the tile at that position in name order; a negative one counts from the end; below `-len` is an IndexError |
| TilesManager.GetOtherKeys | pathml/core/h5managers.py:150-151 | a key neither str, tuple nor int is a KeyError; a bool is read as position 0 or 1 |
| TilesManager.GetAbsent | pathml/core/h5managers.py:127-129 | a str or tuple key that names no tile is a KeyError |
| TilesManager.RemoveOutcome | pathml/core/h5managers.py:213-221 | `remove` deletes exactly the named tile, for a str or tuple key present, and never resets the shape; otherwise it is a KeyError that changes nothing |
| TilesManager.UpdateAllKeepsCount | pathml/core/h5managers.py:101-107 | replacing a whole tile keeps the tile count and the listing, leaves every other tile as it was, and `get` then returns the new tile |
| TilesManager.UpdateImageOnly | pathml/core/h5managers.py:109-113 | for any tile that `get` can read, replacing the image needs an array of the stored shape (else AssertionError, nothing changes) and changes only that tile's image |
| TilesManager.UpdateLabelsThenGet | pathml/core/h5managers.py:118-135 | labels set by `update(..., 'labels')` are what `get` by name returns next, as texts; the listing, the shape and every other tile are unchanged |
| TilesManager.UpdateLabelsOutcome | pathml/core/h5managers.py:118-121 | setting the labels of a readable tile succeeds exactly when the dict is non-empty and all its values are str (h5py has no storage for an empty or mixed-type object array, a TypeError); success replaces only that tile's labels attribute, failure changes nothing |
| TilesManager.UpdateOtherTargets | pathml/core/h5managers.py:94-124 | an unknown key is a ValueError; the `masks` target is NotImplementedError and any target other than all, image and labels a KeyError; none of these changes the store |
| TilesManager.SliceInKeyOrder | pathml/core/h5managers.py:199-200 | `slice` yields one view per tile, in name order, each what `get` by that name returns |
| TilesManager.TilesStore.constructor | pathml/core/h5managers.py:15-23 | a new store is empty, or holds a copy of the given file's tiles; its shape is unset either way |
| TilesManager.TilesStore.Add | pathml/core/h5managers.py:52-92 | the new state and the exception are those of the add specification, whose properties are the lemmas above |
| TilesManager.TilesStore.Get | pathml/core/h5managers.py:126-185 | returns the view or the exception the get specification gives |
| TilesManager.TilesStore.Update | pathml/core/h5managers.py:94-124 | the new state and the exception are those of the update specification |
| TilesManager.TilesStore.Slice | pathml/core/h5managers.py:187-200 | the loop over the listing yields the views `SliceFrom` gives, stopping at the first exception |
| TilesManager.TilesStore.Remove | pathml/core/h5managers.py:213-221 | the new state and the exception are those of the remove specification |
| MasksManager.AddOutcome | pathml/core/h5managers.py:240-255 | `add` succeeds exactly for an ndarray under a new str key of the store's shape (or the first); names stay unique and sorted; every rejection is a ValueError that changes nothing |
| MasksManager.AddThenGet | pathml/core/h5managers.py:252-302 | a mask added under a name is what `get` by that name returns |
| MasksManager.ShapeInvariant | pathml/core/h5managers.py:246-251 | every stored mask has the store's shape, and add, update and remove keep it so |
| MasksManager.GetOutcome | pathml/core/h5managers.py:292-310 | bool, tuple and other keys are KeyErrors; a str reads its mask exactly when present; an int past the end is a KeyError, unless a mask is named `masks`; an int in range reads the mask at that position in name order, a negative one counting from the end |
| MasksManager.UpdateOutcome | pathml/core/h5managers.py:257-273 | `update` succeeds exactly for an existing name and an array of its shape; it then overwrites that mask only, in place; an unknown name is a ValueError; a failure changes nothing |
| MasksManager.RemoveOutcome | pathml/core/h5managers.py:312-320 | `remove` deletes exactly the named mask, for a str key present; otherwise it is a KeyError that changes nothing |
| MasksManager.SliceIsGetInOrder | pathml/core/h5managers.py:286-287 | `slice` yields each stored mask once, in name order, paired with its name, as `get` returns it |
| MasksManager.MasksStore.constructor | pathml/core/h5managers.py:15-23 | a new store is empty, or holds a copy of the given file's masks; its shape is unset |
| MasksManager.MasksStore.Add | pathml/core/h5managers.py:232-255 | the new state and the exception are those of the add specification |
| MasksManager.MasksStore.Update | pathml/core/h5managers.py:257-273 | the new state and the exception are those of the update specification |
| MasksManager.MasksStore.Get | pathml/core/h5managers.py:292-310 | returns the mask or the exception the get specification gives |
| MasksManager.MasksStore.Slice | pathml/core/h5managers.py:275-287 | the loop yields every (name, mask) pair in listing order |
| MasksManager.MasksStore.Reshape | pathml/core/h5managers.py:289-290 | `reshape` changes nothing |
| MasksManager.MasksStore.Remove | pathml/core/h5managers.py:312-320 | the new state and the exception are those of the remove specification |
| MaskCollection.Without | pathml/preprocessing/masks.py:56 | deleting a key leaves exactly the other keys |
| MaskCollection.WithoutAt | pathml/preprocessing/masks.py:56 | in a key list without duplicates, deleting a key cuts out its one place and keeps the others in order |
| MaskCollection.PutKeepsValid | pathml/preprocessing/masks.py:51 | `od[k] = v` keeps each key listed once |
| MaskCollection.FromItemsValid | pathml/preprocessing/masks.py:20 | `OrderedDict(items)` lists each key once |
| MaskCollection.FromItemsKeepsOrder | pathml/preprocessing/masks.py:20 | built from a dict, the collection keeps the dict's order and values |
| MaskCollection.InitOutcome | pathml/preprocessing/masks.py:9-22 | a truthy non-dict argument, a non-ndarray value or a non-str key is a ValueError; a falsy argument gives an empty collection; a dict gives its names in order, each with its array |
| MaskCollection.InitDoesNotCheckShapes | pathml/preprocessing/masks.py:14-20 | two masks of different shapes are accepted by the constructor, in the given order |
| MaskCollection.AddOutcome | pathml/preprocessing/masks.py:40-51 | `add` succeeds exactly for an ndarray under a str name whose shape is the first mask's (or which is the first); a rejection is a ValueError that changes nothing |
| MaskCollection.AddPosition | pathml/preprocessing/masks.py:45-51 | adding under an existing name overwrites it in place (same keys, same length); a new name is appended; either way `m[name]` is the new mask |
| MaskCollection.AddKeepsUniformShape | pathml/preprocessing/masks.py:47-51 | when all masks share the first one's shape, `add` keeps it so |
| MaskCollection.RemoveKeepsUniformShape | pathml/preprocessing/masks.py:53-56 | when all masks share the first one's shape, `remove` keeps it so |
| MaskCollection.GetItemOutcome | pathml/preprocessing/masks.py:31-38 | a str looks up directly (absent: KeyError); tuples and other keys are KeyErrors; an int past the end is a KeyError, otherwise the mask at that insertion position, a negative one from the end; `True` reads position 1 |
| MaskCollection.RemoveOutcome | pathml/preprocessing/masks.py:53-56 | `remove` of a present key deletes only it and keeps the others in order; otherwise a KeyError that changes nothing |
| MaskCollection.Masks.constructor | pathml/preprocessing/masks.py:20 | the collection holds `OrderedDict(items)` |
| MaskCollection.Masks.Create | pathml/preprocessing/masks.py:9-22 | fails exactly when, and with the exception that, the constructor specification gives; otherwise a fresh collection holding its result |
| MaskCollection.Masks.Len | pathml/preprocessing/masks.py:28-29 | `len` is the number of stored masks |
| MaskCollection.Masks.GetItem | pathml/preprocessing/masks.py:31-38 | returns what the lookup specification gives |
| MaskCollection.Masks.Add | pathml/preprocessing/masks.py:40-51 | the new state and the exception are those of the add specification |
| MaskCollection.Masks.Remove | pathml/preprocessing/masks.py:53-56 | the new state and the exception are those of the remove specification |
| CenterCrop.Clamp | pathml/ml/utils.py:31 | a slice bound counts from the end when negative and is clamped to the axis |
| CenterCrop.SliceAxis | pathml/ml/utils.py:31 | slicing one axis keeps the other three and leaves `stop - start` after clamping, or nothing |
| CenterCrop.CropSides | pathml/ml/utils.py:23-26 | the two sides add up to the crop, the top/left side getting the floor half |
| CenterCrop.AssertionsOutcome | pathml/ml/utils.py:14-17 | an assertion fails exactly when the batch is not 4-D, `dims` has not two entries, or the order is neither "BHCW" nor "BCHW"; "BHWC" always fails it |
| CenterCrop.NoCropIsIdentity | pathml/ml/utils.py:19-21 | `dims == (0, 0)` returns the batch itself |
| CenterCrop.CropRemap | pathml/ml/utils.py:23-31 | BCHW with both crops positive: B and C kept, H and W shrink by `dims`, and `out[b,c,i,j] == batch[b,c,i+crop_t,j+crop_l]` |
| CenterCrop.ZeroCropEmptiesAxis | pathml/ml/utils.py:26-31 | a crop of 0 on one axis (or a list `[0, 0]`) empties that axis through the `-0` slice end |
| CenterCrop.ZeroCropExample | pathml/ml/utils.py:19-31 | cropping only the width of a 1x1x4x4 batch leaves a 1x1x0x2 batch |
| CenterCrop.BhcwRaises | pathml/ml/utils.py:16-33 | "BHCW" passes the assertion and then raises unless nothing is cropped |
| CenterCrop.CropAgreesWhenPositive | pathml/ml/utils.py:30-31 | with both crops positive, the intended crop equals the crop as written |
| CenterCrop.SliceKeepsRest | pathml/ml/utils.py:31 | slicing `start : end` with the end fixed for a zero crop removes exactly `start + crop` |
| CenterCrop.CropAxesOutcome | pathml/ml/utils.py:28-31 | with crops between 0 and the axis extents, each spatial axis loses exactly its crop, the others are kept, and each output pixel is the input pixel shifted by the top and left crops |
| CenterCrop.IntendedCrop | pathml/ml/utils.py:28-31 | the intended crop succeeds for both admitted orders and crops axes 1 and 2 for channels-last, 2 and 3 for channels-first |
| CenterCrop.BhwcCrops | pathml/ml/utils.py:28-29 | a channels-last 2x6x8x3 batch cropped by (2, 4) becomes 2x4x4x3 |
| H5Utils.WriteStringOutcome | pathml/core/utils.py:30-35 | `writestringh5` sets exactly the attribute `str(name)` to the encoded text, and for non-ASCII text raises without writing |
| H5Utils.TupleRoundTripH5 | pathml/core/utils.py:50-62 | a tuple written by `writetupleh5` reads back by `readtupleh5` as the same tuple |
| H5Utils.ReadTupleNone | pathml/core/utils.py:58-62 | a missing attribute reads as None, and so does a written `None` |
| H5Utils.WriteDictOutcome | pathml/core/utils.py:38-47 | `writedicth5` appends one new group with no members and one attribute per distinct `str(key)`, each holding the value of the last item written under it; an existing name is a ValueError that leaves the file unchanged |
| H5Utils.WriteDictNonStrName | pathml/core/utils.py:42-44 | a name that is not a str creates its group under its text, then fails on the first item |
| H5Utils.WriteDict | pathml/core/utils.py:38-47 | the loop over the items gives the node and exception of the `writedicth5` specification |
| H5Utils.WriteTileFields | pathml/core/utils.py:76-103 | the loop over one tile's fields gives what the field-writing specification gives |
| H5Utils.WriteTilesLoop | pathml/core/utils.py:73-103 | the loop over the tiles gives what the tile-writing specification gives, stopping at the first failure |
| H5Utils.WriteTilesDict | pathml/core/utils.py:65-103 | `writetilesdicth5` gives the node and exception of its specification |
| H5Utils.DecodeScalar | pathml/core/utils.py:125-126 | a byte string decodes to a str; other values are unchanged |
| H5Utils.DecodeLabels | pathml/core/utils.py:116-128 | an empty label group reads as None; otherwise every attribute, decoded |
| H5Utils.ReadLabels | pathml/core/utils.py:118-128 | the loop over the label attributes gives the decoded labels |
| H5Utils.ReadTileAt | pathml/core/utils.py:115-135 | reading one tile group gives what the tile-reading specification gives |
| H5Utils.ReadTileOutcome | pathml/core/utils.py:115-135 | with the intended name reading, a tile reads exactly when name and coords are string datasets; a missing name or the text `None` reads as None, a missing coords as None, and labels are the label attributes decoded (None when absent or empty); as written, it also fails when the name text is not a literal, and otherwise gives the `literal_eval` of the name with the same labels and coords |
| H5Utils.ReadEachAll | pathml/core/utils.py:113-136 | when every tile reads, the result has one entry per name, in order |
| H5Utils.ReadTilesLoop | pathml/core/utils.py:114-136 | the loop over the listed tiles gives what the reading specification gives, stopping at the first failure |
| H5Utils.ReadTilesDict | pathml/core/utils.py:106-136 | `readtilesdicth5` reads the tiles in the group's listing order |
| H5Utils.WriteFieldStores | pathml/core/utils.py:78-101 | a storable field is written under its name as a string dataset or a group of attributes |
| H5Utils.WriteFieldsStores | pathml/core/utils.py:76-101 | distinct storable fields are all written, each under its name, and nothing else changes |
| H5Utils.ReadWrittenTile | pathml/core/utils.py:76-135 | a tile group written from a well-formed tile dict reads back as its expected entry |
| H5Utils.WriteTilesStores | pathml/core/utils.py:73-101 | distinct new tiles each get their own group, appended in order; the groups already there are kept |
| H5Utils.WriteTilesFresh | pathml/core/utils.py:65-101 | writing a well-formed tile dict into a new group creates a tracked group with one group per tile, in the dict's order |
| H5Utils.ReadWrittenTiles | pathml/core/utils.py:106-136 | such a group reads back as one expected entry per tile, in the dict's order |
| H5Utils.TilesRoundTrip | pathml/core/utils.py:65-136 | `readtilesdicth5` after `writetilesdicth5` (with the intended name reading) gives one entry per tile, in the dict's order, each the expected entry |
| H5Utils.PlainNameIsNotALiteral | pathml/core/utils.py:115 | `literal_eval` of an ordinary tile name fails, where the intended reading keeps the name |
| H5Utils.NonLiteralNameFailsToRead | pathml/core/utils.py:115 | a tile written with a name that is not a Python literal makes `readtilesdicth5` as written fail with ValueError; the intended reading returns the name |
| H5Utils.TupleTileKeyIsKeyError | pathml/core/utils.py:73-76 | a tuple tile key gets a group under its text, but its fields are looked up under that text: a KeyError, with the empty group left behind |
| H5Utils.OuterGroupOnce | pathml/core/utils.py:69-72 | the outer group is created, tracking creation order, only when missing; other members of the file are untouched |

## Left out

- `slices` arguments of `get` and `slice` in both stores: numpy fancy slicing is not modelled; `get` and `slice` are modelled without them.
- `writedataframeh5` chunking, gzip compression and shuffle options: storage details with no effect on the contents; an array is stored as its shape and cells.
- Temporary-file creation in `_h5_manager.__init__`: I/O; the file is the store's state.
- Tiles `reshape` raises NotImplementedError unconditionally and is not modelled as a member.
- Tile masks copied from another store's file (the `try` branch of `add`) are not told apart from masks given as a dict; both store the same name-to-array map.
- A tile group with no `masks` sub-group, which only a copied file could hold, is not modelled: `get` always returns a masks map.
- `'/'` inside a group or attribute name, which HDF5 reads as a path, is not modelled.
- H5Utils.ReadTuple: `eval` is modelled only on the texts `str()` produces for `None` and int tuples; any other text is a SyntaxError.
- H5Utils.LiteralEvalName: `ast.literal_eval` is modelled only on `None`, int and int-tuple texts; any other text is a ValueError.
- `np.string_` is modelled as an ASCII check (UnicodeEncodeError otherwise); the bytes it produces are represented by the text they decode to.
- The `SlideType` dataclass is not part of this model: a slide-type field is given by the items `asdict` returns.
- HDF5 objects are modelled as values: the writers return the new tree rather than updating shared handles, so aliasing between handles is not modelled.
- Python's `1 == True` dict-key equality is not modelled: keys of different types are always different.
- Attribute listing order of an HDF5 object is not modelled: label attributes are a map.
- `if labels:` on an HDF5 group is modelled as always true: h5py treats an open group as truthy, even an empty one.
- `dims` entries are modelled as ints only.
- Float label values are not modelled: a label value is a str, an int or a byte string, so the text `astype(str)` gives a float is not covered.
- `dice_loss`, `get_sobel_kernels` and `pathml/ml/blur.py`: floating-point tensor numerics and model training.
- `pathml/core/masks.py`: it delegates to store methods that `pathml/core/h5managers.py` does not define.
- `pathml/core/slide_data.py`, `pathml/core/slide_classes.py` and `pathml/_logging.py`: slide-backend I/O, pipeline orchestration and logging.
- The `print` in `Masks.add` and `__repr__`: output only.

## Findings

| source | as written | input that shows it | evidently intended | confidence | as-written member | corrected member |
|---|---|---|---|---|---|---|
| pathml/core/utils.py:115 | the stored tile name is parsed with `ast.literal_eval` | a tile named `tile1`: written as the text `tile1`, read back as a ValueError | the name text is returned as is, with `None` standing for None | not executed | H5Utils.NonLiteralNameFailsToRead | H5Utils.TilesRoundTrip |
| pathml/ml/utils.py:16,28-33 | the assertion admits "BHCW" and the branch tests "BHWC" | `batch_order="BHWC"` fails the assertion; "BHCW" with `dims=(2, 2)` raises `Exception` | "BHWC" is admitted and crops axes 1 and 2 | not executed | CenterCrop.BhcwRaises | CenterCrop.IntendedCrop |
| pathml/ml/utils.py:26,31 | the slice end is `-crop_b`, which is `-0` when that crop is 0 | a 1x1x4x4 batch with `dims=(0, 2)` gives a 1x1x0x2 batch | a zero crop keeps the whole axis (1x1x4x2) | not executed | CenterCrop.ZeroCropExample | CenterCrop.CropAxesOutcome |
