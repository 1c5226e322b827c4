/** The batch `SecurityLabel` object: a label dict that always holds `name`,
    and optionally `description` and `color`, which the setters overwrite in
    place. */
module BatchSecurityLabel {
  import opened Wrappers

  const NameKey := "name"
  const DescriptionKey := "description"
  const ColorKey := "color"

  /** `dict.get(key)`: the stored value, or `None` when the key is absent. */
  function Get(m: map<string, string>, key: string): (r: Option<string>)
    ensures r.Some? <==> key in m
    ensures r.Some? ==> r.value == m[key]
  {
    if key in m then Some(m[key]) else None
  }

  class SecurityLabel {
    /** `_label_data` */
    var labelData: map<string, string>
    /** The `name` the object was built with. */
    ghost const labelName: string

    /** `name` is present and unchanged, and no key but the three is ever
        stored. */
    ghost predicate Valid()
      reads this
    {
      && NameKey in labelData && labelData[NameKey] == labelName
      && forall k :: k in labelData ==> k == NameKey || k == DescriptionKey || k == ColorKey
    }

    /** `__init__`: `name` always, `description` and `color` only when given. */
    constructor (name: string, description: Option<string>, color: Option<string>)
      ensures Valid() && labelName == name
      ensures DescriptionKey in labelData <==> description.Some?
      ensures description.Some? ==> labelData[DescriptionKey] == description.value
      ensures ColorKey in labelData <==> color.Some?
      ensures color.Some? ==> labelData[ColorKey] == color.value
    {
      labelName := name;
      var d := map[NameKey := name];
      if description.Some? {
        d := d[DescriptionKey := description.value];
      }
      if color.Some? {
        d := d[ColorKey := color.value];
      }
      labelData := d;
    }

    /** The `color` property: the stored color, or `None`. */
    function Color(): (r: Option<string>)
      reads this
      ensures r.Some? <==> ColorKey in labelData
      ensures r.Some? ==> r.value == labelData[ColorKey]
    {
      Get(labelData, ColorKey)
    }

    /** The `color` setter: stores the color and leaves every other key as
        it was. */
    method SetColor(color: string)
      requires Valid()
      modifies this
      ensures Valid()
      ensures labelData == old(labelData)[ColorKey := color]
      ensures Color() == Some(color)
      ensures Name() == old(Name()) && Description() == old(Description())
    {
      labelData := labelData[ColorKey := color];
    }

    /** The `description` property: the stored description, or `None`. */
    function Description(): (r: Option<string>)
      reads this
      ensures r.Some? <==> DescriptionKey in labelData
      ensures r.Some? ==> r.value == labelData[DescriptionKey]
    {
      Get(labelData, DescriptionKey)
    }

    /** The `description` setter: stores the description and leaves every
        other key as it was. */
    method SetDescription(description: string)
      requires Valid()
      modifies this
      ensures Valid()
      ensures labelData == old(labelData)[DescriptionKey := description]
      ensures Description() == Some(description)
      ensures Name() == old(Name()) && Color() == old(Color())
    {
      labelData := labelData[DescriptionKey := description];
    }

    /** The `name` property, which has no setter: for a valid object it is
        the constructor's argument. */
    function Name(): (r: Option<string>)
      reads this
      ensures Valid() ==> r == Some(labelName)
    {
      Get(labelData, NameKey)
    }

    /** The `data` property: the label dict itself, holding `name` and
        exactly the keys the getters find. */
    function Data(): (r: map<string, string>)
      reads this
      ensures Valid() ==> NameKey in r && r[NameKey] == labelName
      ensures Valid() ==> forall k :: k in r ==> k == NameKey || k == DescriptionKey || k == ColorKey
      ensures Color() == Get(r, ColorKey) && Description() == Get(r, DescriptionKey) && Name() == Get(r, NameKey)
    {
      labelData
    }
  }
}
