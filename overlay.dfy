/** Merging a resolved Extra and the hardware properties into the detected
    device's specs. Each overlay writes a fixed set of spec fields and leaves
    every other field, and the ops, as they were. */
module Overlays {
  import opened RubyValues
  import opened Records
  import opened Rating

  /** The fields an overlay of the given kind may write. */
  function OverlayFields(field: string): set<string>
  {
    match field
    case "platform" => {"general_platform", "general_platform_version"}
    case "browser" => {"general_browser", "general_browser_version"}
    case "app" => {"general_app", "general_app_version", "general_app_category"}
    case "language" => {"general_language", "general_language_full"}
    case _ => {}
  }

  /** Copies the named fields of an Extra's specs onto the device's (a field
      missing from the Extra is copied as nil). */
  function CopyFields(d: Specs, e: Specs, names: seq<string>): (r: Specs)
    ensures forall k :: k !in names ==> Lookup(r, k) == Lookup(d, k) && (k in r <==> k in d)
    ensures forall k :: k in names ==> Lookup(r, k) == Lookup(e, k) && k in r
    decreases |names|, d
  {
    if names == [] then d
    else CopyFields(d[names[0] := Lookup(e, names[0])], e, names[1..])
  }

  /** specs_overlay on the specs: what one resolved Extra contributes. */
  function OverlaySpecs(field: string, d: Specs, e: Specs): Specs
  {
    match field
    case "platform" =>
      var name := Lookup(e, "general_platform");
      var version := Lookup(e, "general_platform_version");
      if !Blank(name) && !Blank(version) then
        CopyFields(d, e, ["general_platform", "general_platform_version"])
      else if !Blank(name) && name != Lookup(d, "general_platform") then
        d["general_platform" := name]["general_platform_version" := VStr("")]
      else d
    case "browser" =>
      if !Blank(Lookup(e, "general_browser")) then CopyFields(d, e, ["general_browser", "general_browser_version"])
      else d
    case "app" =>
      if !Blank(Lookup(e, "general_app")) then
        CopyFields(d, e, ["general_app", "general_app_version", "general_app_category"])
      else d
    case "language" =>
      if !Blank(Lookup(e, "general_language")) then
        CopyFields(d, e, ["general_language", "general_language_full"])
      else d
    case _ => d
  }

  /** specs_overlay: a record without hd_specs changes nothing. */
  function SpecsOverlay(field: string, device: DeviceRecord, extra: ExtraRecord): (r: DeviceRecord)
    ensures r.id == device.id && r.ops == device.ops
    ensures forall k :: k !in OverlayFields(field) ==> Lookup(r.specs, k) == Lookup(device.specs, k)
  {
    match extra.specs
    case None => device
    case Some(e) => device.(specs := OverlaySpecs(field, device.specs, e))
  }

  /** hardware_info_overlay: the display size and the raw pixel ratio
      (hundredths) of the props, none of it when there are no props. */
  function HardwareInfoOverlay(device: DeviceRecord, info: Option<HwProps>): (r: DeviceRecord)
    ensures r.id == device.id && r.ops == device.ops
  {
    match info
    case None => device
    case Some(p) =>
      device.(specs := device.specs["display_x" := VInt(p.x)]["display_y" := VInt(p.y)]
                                   ["display_pixel_ratio" := VInt(p.ratio)])
  }

  // ---------------------------------------------------------------- properties

  /** Platform overlay: a complete platform replaces name and version; a
      name alone that differs from the device's replaces the name and
      clears the version; anything else leaves the device alone. */
  lemma PlatformOverlayEffect(device: DeviceRecord, e: Specs)
    ensures var r := SpecsOverlay("platform", device, ExtraRecord(Some(e))).specs;
            var name := Lookup(e, "general_platform");
            var version := Lookup(e, "general_platform_version");
            (!Blank(name) && !Blank(version) ==>
               Lookup(r, "general_platform") == name && Lookup(r, "general_platform_version") == version) &&
            (!Blank(name) && Blank(version) && name != Lookup(device.specs, "general_platform") ==>
               Lookup(r, "general_platform") == name && Lookup(r, "general_platform_version") == VStr("")) &&
            (Blank(name) || (Blank(version) && name == Lookup(device.specs, "general_platform")) ==>
               r == device.specs)
  {
  }

  /** After a platform overlay with a named platform, the device runs that
      platform. */
  lemma PlatformOverlayNames(device: DeviceRecord, e: Specs)
    requires !Blank(Lookup(e, "general_platform"))
    ensures Lookup(SpecsOverlay("platform", device, ExtraRecord(Some(e))).specs, "general_platform") ==
            Lookup(e, "general_platform")
  {
    PlatformOverlayEffect(device, e);
  }

  /** Browser, app and language overlays copy their fields exactly when the
      Extra names one, and change nothing otherwise. */
  lemma NamedOverlayEffect(field: string, device: DeviceRecord, e: Specs)
    requires field == "browser" || field == "app" || field == "language"
    ensures var name := "general_" + field;
            var r := SpecsOverlay(field, device, ExtraRecord(Some(e))).specs;
            (!Blank(Lookup(e, name)) ==> forall k :: k in OverlayFields(field) ==> Lookup(r, k) == Lookup(e, k)) &&
            (Blank(Lookup(e, name)) ==> r == device.specs)
  {
    if field == "browser" {
      assert "general_" + field == "general_browser";
    } else if field == "app" {
      assert "general_" + field == "general_app";
    } else {
      assert "general_" + field == "general_language";
    }
  }

  /** The language Extra built by match_language sets both language fields. */
  lemma LanguageOverlaySetsBoth(device: DeviceRecord, code: string, full: string)
    requires !BlankStr(code)
    ensures var r := SpecsOverlay("language", device,
                                  ExtraRecord(Some(map["general_language" := VStr(code),
                                                       "general_language_full" := VStr(full)]))).specs;
            Lookup(r, "general_language") == VStr(code) && Lookup(r, "general_language_full") == VStr(full)
  {
    NamedOverlayEffect("language", device, map["general_language" := VStr(code), "general_language_full" := VStr(full)]);
  }

  /** The hardware overlay writes exactly the three display fields: the
      benchmark and every other field are kept. */
  lemma HardwareOverlayEffect(device: DeviceRecord, info: Option<HwProps>)
    ensures var r := HardwareInfoOverlay(device, info).specs;
            (info.None? ==> r == device.specs) &&
            (info.Some? ==> Lookup(r, "display_x") == VInt(info.value.x) &&
                            Lookup(r, "display_y") == VInt(info.value.y) &&
                            Lookup(r, "display_pixel_ratio") == VInt(info.value.ratio)) &&
            forall k :: k != "display_x" && k != "display_y" && k != "display_pixel_ratio" ==>
              Lookup(r, k) == Lookup(device.specs, k)
  {
  }

  /** Overlaying the same hardware twice is overlaying it once. */
  lemma HardwareOverlayIdempotent(device: DeviceRecord, info: Option<HwProps>)
    ensures HardwareInfoOverlay(HardwareInfoOverlay(device, info), info) == HardwareInfoOverlay(device, info)
  {
  }
}
