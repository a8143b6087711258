/** `moduleExists` of `src/utils/modules.ts`: whether a module can be
    imported, asked of the runtime once per name and remembered in the
    module-level table `moduleStatus`. */
module ModuleCache {
  import Js

  /** The module's state: the table, and (for the proofs) the names the
      runtime was asked about, in order. */
  class ModuleTable {
    var moduleStatus: map<string, bool>
    ghost var probed: seq<string>

    /** Every name was probed once, and exactly the probed names have an
        entry. */
    ghost predicate Valid()
      reads this
    {
      && (forall i, j :: 0 <= i < j < |probed| ==> probed[i] != probed[j])
      && (forall name :: name in probed <==> name in moduleStatus)
      && (forall name :: name in moduleStatus ==> name !in Js.ObjectPrototypeNames)
    }

    /** The table as the module is loaded: empty. */
    constructor()
      ensures Valid() && moduleStatus == map[] && probed == []
    {
      moduleStatus := map[];
      probed := [];
    }

    /** `moduleExists(moduleName)`; `probe` stands for
        `checkIfModuleExists`, whether a dynamic import succeeds, and
        `found` is the truthiness of the answer, which is what the caller
        tests. A name the `{}` table inherits from `Object.prototype` is
        never `undefined` there: the inherited function (or prototype) is
        returned, truthy, without asking the runtime. Otherwise the first
        lookup of a name asks the runtime and stores the answer; a later one
        returns the stored answer without asking, whatever the runtime would
        say now; no other entry changes. */
    method ModuleExists(moduleName: string, probe: string -> bool) returns (found: bool)
      requires Valid()
      modifies this
      ensures Valid()
      ensures moduleName in Js.ObjectPrototypeNames ==>
        found && moduleStatus == old(moduleStatus) && probed == old(probed)
      ensures moduleName !in Js.ObjectPrototypeNames ==>
        moduleName in moduleStatus && found == moduleStatus[moduleName]
      ensures moduleName in old(moduleStatus) ==>
        found == old(moduleStatus)[moduleName] && moduleStatus == old(moduleStatus) && probed == old(probed)
      ensures moduleName !in old(moduleStatus) && moduleName !in Js.ObjectPrototypeNames ==>
        found == probe(moduleName)
        && moduleStatus == old(moduleStatus)[moduleName := found]
        && probed == old(probed) + [moduleName]
    {
      if moduleName in Js.ObjectPrototypeNames {
        found := true;
      } else {
        if moduleName !in moduleStatus {
          moduleStatus := moduleStatus[moduleName := probe(moduleName)];
          probed := probed + [moduleName];
        }
        found := moduleStatus[moduleName];
      }
    }
  }
}
