/** The settings dialog's editing state: a working copy `tempConfig` of the
    configuration and the selected agent preset, changed by the dialog's
    handlers and handed back on save. */
module Settings {
  import opened Strings
  import opened Types

  const CustomId: string := "custom"

  /** `agents.find(a => a.systemPrompt === prompt)`, as a position; an absent
      prompt matches no agent. */
  function FindByPrompt(agents: seq<Agent>, prompt: Option<string>): (r: Option<nat>)
    ensures r.Some? ==> r.value < |agents| && prompt == Some(agents[r.value].systemPrompt)
    ensures forall j :: 0 <= j < |agents| && (r.None? || j < r.value) ==> prompt != Some(agents[j].systemPrompt)
  {
    if agents == [] then None
    else if prompt == Some(agents[0].systemPrompt) then Some(0)
    else
      match FindByPrompt(agents[1..], prompt)
      case None => None
      case Some(i) => Some(i + 1)
  }

  /** `agents.find(a => a.id === id)`, as a position. */
  function FindById(agents: seq<Agent>, id: string): (r: Option<nat>)
    ensures r.Some? ==> r.value < |agents| && agents[r.value].id == id
    ensures forall j :: 0 <= j < |agents| && (r.None? || j < r.value) ==> agents[j].id != id
  {
    if agents == [] then None
    else if agents[0].id == id then Some(0)
    else
      match FindById(agents[1..], id)
      case None => None
      case Some(i) => Some(i + 1)
  }

  /** The preset the dialog shows for a configuration: the first agent with
      exactly that prompt, else "custom". */
  function PresetFor(agents: seq<Agent>, prompt: Option<string>): string
  {
    match FindByPrompt(agents, prompt)
    case Some(i) => agents[i].id
    case None => CustomId
  }

  /** Choosing a preset and saving, then reopening the dialog, shows a preset
      with the same prompt: the chosen one, or an earlier agent sharing its
      prompt. */
  lemma PresetSurvivesReopen(agents: seq<Agent>, k: nat)
    requires k < |agents|
    ensures var j := FindByPrompt(agents, Some(agents[k].systemPrompt));
            j.Some? && j.value <= k && agents[j.value].systemPrompt == agents[k].systemPrompt
            && PresetFor(agents, Some(agents[k].systemPrompt)) == agents[j.value].id
  {
  }

  /** A prompt that no agent has shows as "custom". */
  lemma UnknownPromptIsCustom(agents: seq<Agent>, prompt: Option<string>)
    requires forall j :: 0 <= j < |agents| ==> prompt != Some(agents[j].systemPrompt)
    ensures PresetFor(agents, prompt) == CustomId
  {
  }

  class SettingsModal {
    var tempConfig: OllamaConfig
    var selectedAgentId: string

    constructor (config: OllamaConfig)
      ensures tempConfig == config && selectedAgentId == CustomId
    {
      tempConfig := config;
      selectedAgentId := CustomId;
    }

    /** The effect run when the dialog opens: copy the configuration and
        select the preset whose prompt it carries. */
    method Open(config: OllamaConfig, agents: seq<Agent>)
      modifies this
      ensures tempConfig == config
      ensures selectedAgentId == PresetFor(agents, config.systemPrompt)
    {
      tempConfig := config;
      var matching := FindByPrompt(agents, config.systemPrompt);
      if matching.Some? {
        selectedAgentId := agents[matching.value].id;
      } else {
        selectedAgentId := CustomId;
      }
    }

    /** `handleAgentChange`: select `agentId`; a known agent's prompt replaces
        the working prompt, model and URL stay. */
    method HandleAgentChange(agentId: string, agents: seq<Agent>)
      modifies this
      ensures selectedAgentId == agentId
      ensures agentId != CustomId && FindById(agents, agentId).Some? ==>
                tempConfig == old(tempConfig).(systemPrompt := Some(agents[FindById(agents, agentId).value].systemPrompt))
      ensures agentId == CustomId || FindById(agents, agentId).None? ==> tempConfig == old(tempConfig)
    {
      selectedAgentId := agentId;
      if agentId != CustomId {
        var agent := FindById(agents, agentId);
        if agent.Some? {
          tempConfig := tempConfig.(systemPrompt := Some(agents[agent.value].systemPrompt));
        }
      }
    }

    /** Typing in the prompt box: the prompt is the text and the preset
        becomes "custom". */
    method EditPrompt(text: string)
      modifies this
      ensures tempConfig == old(tempConfig).(systemPrompt := Some(text))
      ensures selectedAgentId == CustomId
    {
      tempConfig := tempConfig.(systemPrompt := Some(text));
      selectedAgentId := CustomId;
    }

    /** Choosing or typing a model name changes only the model. */
    method EditModel(model: string)
      modifies this
      ensures tempConfig == old(tempConfig).(model := model)
      ensures selectedAgentId == old(selectedAgentId)
    {
      tempConfig := tempConfig.(model := model);
    }

    /** Typing the server URL changes only the URL. */
    method EditBaseUrl(baseUrl: string)
      modifies this
      ensures tempConfig == old(tempConfig).(baseUrl := baseUrl)
      ensures selectedAgentId == old(selectedAgentId)
    {
      tempConfig := tempConfig.(baseUrl := baseUrl);
    }

    /** Save hands over exactly the working copy. */
    method Save() returns (saved: OllamaConfig)
      ensures saved == tempConfig
    {
      saved := tempConfig;
    }
  }
}
